/** Counting what the graph would have to hold, before it is built (graph-resources.ts). */
module GraphResources {
  import opened Sequences
  import opened Text
  import opened Composition
  import opened Candidates
  import opened DeclarationCensus

  const GRAPH_EDGES: nat := 262144
  const PROVIDERS_PER_MANY_SLOT: nat := 1024

  /** What admission has observed of one binding row, even of one that is not admitted. */
  datatype RowFact = RowFact(ordinal: nat, consumer: Id, slotId: Option<Id>, occurrences: nat)

  datatype Observations = Observations(selections: seq<Selection>, complete: bool, rows: seq<RowFact>)

  ghost predicate Names(selections: seq<Selection>, id: Id) {
    exists s :: s in selections && s.implementationId == id
  }

  /** The provider occurrences in the rows of selected consumers. */
  ghost function Occurrences(selections: seq<Selection>, rows: seq<RowFact>): nat {
    if rows == [] then 0
    else
      var last := rows[|rows| - 1];
      Occurrences(selections, rows[..|rows| - 1]) + if Names(selections, last.consumer) then last.occurrences else 0
  }

  /** A row with more providers than any many-slot may take, for a declared many-slot of a selected consumer. */
  ghost predicate Overfull(c: Census, selections: seq<Selection>, row: RowFact) {
    && Names(selections, row.consumer) && row.slotId.Some? && row.occurrences > PROVIDERS_PER_MANY_SLOT
    && Look(c.implementations, row.consumer).Unique?
    && Look(Look(c.implementations, row.consumer).value.slots, row.slotId.value).Unique?
    && Look(Look(c.implementations, row.consumer).value.slots, row.slotId.value).value.bounds.Many?
  }

  ghost function OverfullReports(c: Census, selections: seq<Selection>, rows: seq<RowFact>): set<Candidate> {
    set row | row in rows && Overfull(c, selections, row) :: TooManyProviders(row.ordinal)
  }

  ghost predicate EdgesExceeded(o: Observations) {
    o.complete && Occurrences(o.selections, o.rows) > GRAPH_EDGES
  }

  ghost function ResourceReports(c: Census, observations: Option<Observations>): set<Candidate> {
    match observations
    case None => {}
    case Some(o) => OverfullReports(c, o.selections, o.rows) + if EdgesExceeded(o) then {TooManyEdges} else {}
  }

  ghost predicate DistinctOrdinals(rows: seq<RowFact>) {
    forall i, j :: 0 <= i < j < |rows| ==> rows[i].ordinal != rows[j].ordinal
  }

  lemma OverfullMore(c: Census, selections: seq<Selection>, rows: seq<RowFact>, k: nat)
    requires k < |rows| && DistinctOrdinals(rows)
    ensures OverfullReports(c, selections, rows[..k + 1]) ==
            OverfullReports(c, selections, rows[..k])
              + if Overfull(c, selections, rows[k]) then {TooManyProviders(rows[k].ordinal)} else {}
    ensures TooManyProviders(rows[k].ordinal) !in OverfullReports(c, selections, rows[..k])
  {
    hide Overfull;
    assert rows[..k + 1] == rows[..k] + [rows[k]];
    forall r ensures r in rows[..k + 1] <==> r in rows[..k] || r == rows[k] {}
    forall r | r in rows[..k] ensures r.ordinal != rows[k].ordinal { var i :| 0 <= i < k && rows[i] == r; }
  }

  function SelectedSet(selections: seq<Selection>): set<Id> {
    set s | s in selections :: s.implementationId
  }

  function SlotOf(c: Census, consumer: Id, slotId: Id): Found<Slot> {
    match Look(c.implementations, consumer)
    case Unique(d) => Look(d.slots, slotId)
    case _ => Absent
  }

  /** The count saturates one above the limit; nothing is counted without a complete census of the selections. */
  method CollectGraphResourceLimits(observations: Option<Observations>, c: Census)
    returns (counted: Option<nat>, exceeded: bool, added: seq<Candidate>)
    requires observations.Some? ==> DistinctOrdinals(observations.value.rows)
    ensures Exactly(added, ResourceReports(c, observations))
    ensures counted.Some? <==> observations.Some? && observations.value.complete
    ensures counted.Some? ==>
      counted.value == Min(GRAPH_EDGES + 1, Occurrences(observations.value.selections, observations.value.rows))
    ensures exceeded <==> observations.Some? && EdgesExceeded(observations.value)
  {
    hide Overfull, OverfullReports;
    if observations.None? { return None, false, []; }
    var o := observations.value;
    var selected := SelectedSet(o.selections);
    var inputEdges: int := 0;
    added := [];
    NoOverfull(c, o.selections);
    assert o.rows[..0] == [];
    for k := 0 to |o.rows|
      invariant inputEdges == Min(GRAPH_EDGES + 1, Occurrences(o.selections, o.rows[..k]))
      invariant Exactly(added, OverfullReports(c, o.selections, o.rows[..k]))
    {
      var row := o.rows[k];
      OverfullMore(c, o.selections, o.rows, k);
      assert o.rows[..k + 1][..k] == o.rows[..k];
      assert row.consumer in selected <==> Names(o.selections, row.consumer);
      OverfullIs(c, o.selections, row);
      if row.consumer in selected {
        inputEdges := Min(GRAPH_EDGES + 1, inputEdges + row.occurrences);
        if row.slotId.Some? && row.occurrences > PROVIDERS_PER_MANY_SLOT {
          var slot := SlotOf(c, row.consumer, row.slotId.value);
          if slot.Unique? && slot.value.bounds.Many? {
            ExactlyOne(added, OverfullReports(c, o.selections, o.rows[..k]), TooManyProviders(row.ordinal));
            added := added + [TooManyProviders(row.ordinal)];
          }
        }
      }
      assert OverfullReports(c, o.selections, o.rows[..k]) + {} == OverfullReports(c, o.selections, o.rows[..k]);
    }
    assert o.rows[..|o.rows|] == o.rows;
    OverfullKind(c, o.selections, o.rows);
    counted := if o.complete then Some(inputEdges) else None;
    exceeded := o.complete && inputEdges > GRAPH_EDGES;
    if exceeded {
      ExactlyOne(added, OverfullReports(c, o.selections, o.rows), TooManyEdges);
      added := added + [TooManyEdges];
    }
    assert OverfullReports(c, o.selections, o.rows) + {} == OverfullReports(c, o.selections, o.rows);
  }

  lemma NoOverfull(c: Census, selections: seq<Selection>)
    ensures Exactly([], OverfullReports(c, selections, []))
  {
  }

  lemma OverfullIs(c: Census, selections: seq<Selection>, row: RowFact)
    ensures Overfull(c, selections, row) <==>
      && Names(selections, row.consumer) && row.slotId.Some? && row.occurrences > PROVIDERS_PER_MANY_SLOT
      && SlotOf(c, row.consumer, row.slotId.value).Unique?
      && SlotOf(c, row.consumer, row.slotId.value).value.bounds.Many?
  {
  }

  lemma OverfullKind(c: Census, selections: seq<Selection>, rows: seq<RowFact>)
    ensures TooManyEdges !in OverfullReports(c, selections, rows)
  {
  }
}
