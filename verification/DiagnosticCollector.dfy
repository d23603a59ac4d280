/** The bounded collector: a max-heap over an unbounded stream (collector.ts). */
module DiagnosticCollector {
  import opened Sequences
  import opened Heaps
  import opened DiagnosticOrder

  const RETAINED_LIMIT: nat := 256
  const MAXIMUM_OMITTED: nat := 262144
  const COUNT_CEILING: nat := RETAINED_LIMIT - 1 + MAXIMUM_OMITTED

  function NotAfter(canonicalize: Canonicalize): (Diagnostic, Diagnostic) -> bool {
    (a: Diagnostic, b: Diagnostic) => Compare(a, b, canonicalize) <= 0
  }

  function NotBefore(canonicalize: Canonicalize): (Diagnostic, Diagnostic) -> bool {
    (a: Diagnostic, b: Diagnostic) => Compare(a, b, canonicalize) >= 0
  }

  lemma OrderPreorders(canonicalize: Canonicalize)
    ensures TotalPreorder(NotAfter(canonicalize)) && TotalPreorder(NotBefore(canonicalize))
    ensures Injective(canonicalize) ==> Antisymmetric(NotAfter(canonicalize))
  {
    CompareOrdering(canonicalize);
    hide Compare, KeyOf;
    forall x: Diagnostic, y: Diagnostic, z: Diagnostic | NotAfter(canonicalize)(x, y) && NotAfter(canonicalize)(y, z)
      ensures NotAfter(canonicalize)(x, z) { CompareTransitive(canonicalize, x, y, z); }
    forall x: Diagnostic, y: Diagnostic, z: Diagnostic | NotBefore(canonicalize)(x, y) && NotBefore(canonicalize)(y, z)
      ensures NotBefore(canonicalize)(x, z) { CompareTransitive(canonicalize, z, y, x); }
  }

  lemma CompareTransitive(canonicalize: Canonicalize, x: Diagnostic, y: Diagnostic, z: Diagnostic)
    ensures Compare(x, y, canonicalize) <= 0 <==> Compare(y, x, canonicalize) >= 0
    ensures Compare(x, y, canonicalize) <= 0 && Compare(y, z, canonicalize) <= 0 ==> Compare(x, z, canonicalize) <= 0
    ensures Compare(x, y, canonicalize) >= 0 && Compare(y, z, canonicalize) >= 0 ==> Compare(x, z, canonicalize) >= 0
  {
    CompareOrdering(canonicalize);
    hide Compare;
  }

  ghost function TruncationRecord(omitted: nat): Diagnostic {
    Record(Output, Truncated, Coordinate(None, None, None, None), [], Omitted(omitted))
  }

  /** `kept` are the least elements of the stream, `dropped` the others. */
  ghost predicate Least(canonicalize: Canonicalize, stream: seq<Diagnostic>, kept: seq<Diagnostic>,
                        dropped: seq<Diagnostic>) {
    && multiset(kept) + multiset(dropped) == multiset(stream)
    && forall i, j :: 0 <= i < |kept| && 0 <= j < |dropped| ==> Compare(kept[i], dropped[j], canonicalize) <= 0
  }

  ghost predicate LeastPart(canonicalize: Canonicalize, stream: seq<Diagnostic>, kept: seq<Diagnostic>) {
    exists dropped :: Least(canonicalize, stream, kept, dropped)
  }

  /**
   * What finishing must return for a stream: all of it in order while it fits, else the 255 least in order
   * and one record that counts the rest.
   */
  ghost predicate Finished(canonicalize: Canonicalize, stream: seq<Diagnostic>, out: seq<Diagnostic>) {
    if |stream| <= RETAINED_LIMIT then SortedBy(NotAfter(canonicalize), out) && multiset(out) == multiset(stream)
    else
      && |out| == RETAINED_LIMIT
      && out[RETAINED_LIMIT - 1] == TruncationRecord(Min(|stream| - (RETAINED_LIMIT - 1), MAXIMUM_OMITTED))
      && SortedBy(NotAfter(canonicalize), out[..RETAINED_LIMIT - 1])
      && LeastPart(canonicalize, stream, out[..RETAINED_LIMIT - 1])
  }

  ghost predicate InOrder(canonicalize: Canonicalize, s: seq<Diagnostic>) {
    forall i, j :: 0 <= i < j < |s| ==> !Precedes(s[j], s[i], canonicalize)
  }

  ghost predicate NonePrecedes(canonicalize: Canonicalize, dropped: seq<Diagnostic>, kept: seq<Diagnostic>) {
    forall i, j :: 0 <= i < |dropped| && 0 <= j < |kept| ==> !Precedes(dropped[i], kept[j], canonicalize)
  }

  ghost predicate FirstOf(canonicalize: Canonicalize, stream: seq<Diagnostic>, kept: seq<Diagnostic>) {
    exists dropped ::
      multiset(kept) + multiset(dropped) == multiset(stream) && NonePrecedes(canonicalize, dropped, kept)
  }

  /** In the result nothing precedes what stands before it, and what was left out precedes nothing that was kept. */
  lemma FinishedInOrder(canonicalize: Canonicalize, stream: seq<Diagnostic>, out: seq<Diagnostic>)
    requires Finished(canonicalize, stream, out)
    ensures |stream| <= RETAINED_LIMIT ==> InOrder(canonicalize, out) && multiset(out) == multiset(stream)
    ensures |stream| > RETAINED_LIMIT ==>
      var kept := out[..RETAINED_LIMIT - 1]; InOrder(canonicalize, kept) && FirstOf(canonicalize, stream, kept)
  {
    hide Compare, Precedes, TruncationRecord, SortedBy;
    if |stream| <= RETAINED_LIMIT {
      SortedInOrder(canonicalize, out);
    } else {
      var kept := out[..RETAINED_LIMIT - 1];
      SortedInOrder(canonicalize, kept);
      var dropped :| Least(canonicalize, stream, kept, dropped);
      forall i, j | 0 <= i < |dropped| && 0 <= j < |kept| ensures !Precedes(dropped[i], kept[j], canonicalize) {
        NotBelow(kept[j], dropped[i], canonicalize);
      }
      assert NonePrecedes(canonicalize, dropped, kept);
    }
  }

  lemma SortedInOrder(canonicalize: Canonicalize, s: seq<Diagnostic>)
    requires SortedBy(NotAfter(canonicalize), s)
    ensures InOrder(canonicalize, s)
  {
    hide Compare, Precedes;
    forall i, j | 0 <= i < j < |s| ensures !Precedes(s[j], s[i], canonicalize) {
      assert NotAfter(canonicalize)(s[i], s[j]);
      NotBelow(s[i], s[j], canonicalize);
    }
  }

  lemma NotBelow(a: Diagnostic, b: Diagnostic, canonicalize: Canonicalize)
    requires Compare(a, b, canonicalize) <= 0
    ensures !Precedes(b, a, canonicalize)
  {
    CompareTransitive(canonicalize, a, b, a);
    CompareMeans(b, a, canonicalize);
    hide Compare, Precedes;
  }

  // ---------- the result depends on the stream as a multiset only ----------

  /** The part of two least prefixes of equal length and equal stream is the same. */
  lemma {:induction false} LeastUnique(canonicalize: Canonicalize, stream: seq<Diagnostic>, other: seq<Diagnostic>,
                                       a: seq<Diagnostic>, b: seq<Diagnostic>, x: seq<Diagnostic>, y: seq<Diagnostic>)
    requires Injective(canonicalize) && multiset(stream) == multiset(other) && |a| == |b|
    requires SortedBy(NotAfter(canonicalize), a) && SortedBy(NotAfter(canonicalize), b)
    requires Least(canonicalize, stream, a, x) && Least(canonicalize, other, b, y)
    ensures a == b
  {
    OrderPreorders(canonicalize);
    var le := NotAfter(canonicalize);
    SortCorrect(le, x);
    SortCorrect(le, y);
    SplitSorted(canonicalize, a, x, Sort(le, x));
    SplitSorted(canonicalize, b, y, Sort(le, y));
    SortedUnique(le, a + Sort(le, x), b + Sort(le, y));
    assert (a + Sort(le, x))[..|a|] == a && (b + Sort(le, y))[..|b|] == b;
  }

  lemma SplitSorted(canonicalize: Canonicalize, kept: seq<Diagnostic>, dropped: seq<Diagnostic>,
                    sorted: seq<Diagnostic>)
    requires SortedBy(NotAfter(canonicalize), kept)
    requires SortedBy(NotAfter(canonicalize), sorted)
    requires multiset(sorted) == multiset(dropped)
    requires forall i, j :: 0 <= i < |kept| && 0 <= j < |dropped| ==> Compare(kept[i], dropped[j], canonicalize) <= 0
    ensures SortedBy(NotAfter(canonicalize), kept + sorted)
    ensures multiset(kept + sorted) == multiset(kept) + multiset(dropped)
  {
    MembersOfMultiset(sorted, dropped);
    forall i, j | 0 <= i < |kept| && 0 <= j < |sorted| ensures NotAfter(canonicalize)(kept[i], sorted[j]) {
      assert sorted[j] in dropped;
      var k :| 0 <= k < |dropped| && dropped[k] == sorted[j];
    }
  }

  /** The finished list does not depend on the order in which the stream arrived. */
  lemma FinishedUnique(canonicalize: Canonicalize, stream: seq<Diagnostic>, other: seq<Diagnostic>,
                       a: seq<Diagnostic>, b: seq<Diagnostic>)
    requires Injective(canonicalize) && multiset(stream) == multiset(other)
    requires Finished(canonicalize, stream, a) && Finished(canonicalize, other, b)
    ensures a == b
  {
    MembersOfMultiset(stream, other);
    if |stream| <= RETAINED_LIMIT {
      OrderPreorders(canonicalize);
      SortedUnique(NotAfter(canonicalize), a, b);
    } else {
      CutUnique(canonicalize, stream, other, a, b);
    }
  }

  lemma CutUnique(canonicalize: Canonicalize, stream: seq<Diagnostic>, other: seq<Diagnostic>, a: seq<Diagnostic>,
                  b: seq<Diagnostic>)
    requires Injective(canonicalize) && multiset(stream) == multiset(other) && |stream| == |other| > RETAINED_LIMIT
    requires Finished(canonicalize, stream, a) && Finished(canonicalize, other, b)
    ensures a == b
  {
    hide Least, SortedBy, Injective, NotAfter;
    var last := RETAINED_LIMIT - 1;
    var x :| Least(canonicalize, stream, a[..last], x);
    var y :| Least(canonicalize, other, b[..last], y);
    LeastUnique(canonicalize, stream, other, a[..last], b[..last], x, y);
    assert a == a[..last] + [a[last]] && b == b[..last] + [b[last]];
  }

  // ---------- what one addition keeps ----------

  /** The heap holds the least elements seen so far, at most `RETAINED_LIMIT` of them. */
  ghost predicate Retains(canonicalize: Canonicalize, stream: seq<Diagnostic>, heap: seq<Diagnostic>,
                          dropped: seq<Diagnostic>) {
    && Least(canonicalize, stream, heap, dropped)
    && |heap| <= RETAINED_LIMIT && (dropped != [] ==> |heap| == RETAINED_LIMIT)
  }

  lemma RetainsPermuted(canonicalize: Canonicalize, stream: seq<Diagnostic>, heap: seq<Diagnostic>,
                        dropped: seq<Diagnostic>, other: seq<Diagnostic>)
    requires Retains(canonicalize, stream, heap, dropped) && multiset(other) == multiset(heap)
    ensures Retains(canonicalize, stream, other, dropped)
  {
    MembersOfMultiset(other, heap);
    forall i, j | 0 <= i < |other| && 0 <= j < |dropped| ensures Compare(other[i], dropped[j], canonicalize) <= 0 {
      assert other[i] in heap;
      var k :| 0 <= k < |heap| && heap[k] == other[i];
    }
  }

  lemma RetainsAppend(canonicalize: Canonicalize, stream: seq<Diagnostic>, heap: seq<Diagnostic>,
                      dropped: seq<Diagnostic>, d: Diagnostic)
    requires Retains(canonicalize, stream, heap, dropped) && |heap| < RETAINED_LIMIT
    ensures dropped == [] && Retains(canonicalize, stream + [d], heap + [d], dropped)
  {
  }

  /** A candidate that is not before the greatest retained one joins the dropped ones. */
  lemma RetainsDrop(canonicalize: Canonicalize, stream: seq<Diagnostic>, heap: seq<Diagnostic>,
                    dropped: seq<Diagnostic>, d: Diagnostic)
    requires Retains(canonicalize, stream, heap, dropped)
    requires |heap| == RETAINED_LIMIT
    requires Heap(NotBefore(canonicalize), heap)
    requires Compare(d, heap[0], canonicalize) >= 0
    ensures Retains(canonicalize, stream + [d], heap, dropped + [d])
  {
    OrderPreorders(canonicalize);
    hide Compare, TotalPreorder;
    forall i | 0 <= i < |heap| ensures Compare(heap[i], d, canonicalize) <= 0 {
      RootIsFirst(NotBefore(canonicalize), heap, i);
      CompareTransitive(canonicalize, d, heap[0], heap[i]);
      CompareTransitive(canonicalize, heap[i], d, d);
    }
  }

  /** Otherwise it takes the place of the greatest retained one. */
  lemma RetainsReplace(canonicalize: Canonicalize, stream: seq<Diagnostic>, heap: seq<Diagnostic>,
                       dropped: seq<Diagnostic>, d: Diagnostic)
    requires Retains(canonicalize, stream, heap, dropped)
    requires |heap| == RETAINED_LIMIT
    requires Heap(NotBefore(canonicalize), heap)
    requires Compare(d, heap[0], canonicalize) < 0
    ensures Retains(canonicalize, stream + [d], heap[0 := d], dropped + [heap[0]])
  {
    OrderPreorders(canonicalize);
    hide Compare, TotalPreorder;
    forall i | 0 <= i < |heap| ensures Compare(heap[i], heap[0], canonicalize) <= 0 {
      RootIsFirst(NotBefore(canonicalize), heap, i);
      CompareTransitive(canonicalize, heap[i], heap[0], heap[0]);
    }
    hide Heap;
    ReplacedOrder(canonicalize, heap, dropped, d);
    ReplacedContents(stream, heap, dropped, d);
  }

  lemma ReplacedOrder(canonicalize: Canonicalize, heap: seq<Diagnostic>, dropped: seq<Diagnostic>, d: Diagnostic)
    requires heap != [] && Compare(d, heap[0], canonicalize) <= 0
    requires forall i :: 0 <= i < |heap| ==> Compare(heap[i], heap[0], canonicalize) <= 0
    requires forall i, j :: 0 <= i < |heap| && 0 <= j < |dropped| ==> Compare(heap[i], dropped[j], canonicalize) <= 0
    ensures var more, rest := heap[0 := d], dropped + [heap[0]];
            forall i, j :: 0 <= i < |more| && 0 <= j < |rest| ==> Compare(more[i], rest[j], canonicalize) <= 0
  {
    hide Compare;
    var more, rest := heap[0 := d], dropped + [heap[0]];
    forall i, j | 0 <= i < |more| && 0 <= j < |rest| ensures Compare(more[i], rest[j], canonicalize) <= 0 {
      if i == 0 && j < |dropped| { CompareTransitive(canonicalize, d, heap[0], dropped[j]); }
    }
  }

  lemma ReplacedContents(stream: seq<Diagnostic>, heap: seq<Diagnostic>, dropped: seq<Diagnostic>, d: Diagnostic)
    requires heap != [] && multiset(heap) + multiset(dropped) == multiset(stream)
    ensures multiset(heap[0 := d]) + multiset(dropped + [heap[0]]) == multiset(stream + [d])
  {
    assert heap == [heap[0]] + heap[1..] && heap[0 := d] == [d] + heap[1..];
  }

  // ---------- the collector ----------

  class Collector {
    const canonicalize: Canonicalize
    var heap: seq<Diagnostic>
    var count: nat
    var saturated: bool
    var peakRetained: nat
    var result: Option<seq<Diagnostic>>
    /** Everything ever added, and the part that is no longer held. */
    ghost var stream: seq<Diagnostic>
    ghost var dropped: seq<Diagnostic>

    ghost predicate Valid()
      reads this
    {
      && count == Min(|stream|, COUNT_CEILING) && (saturated <==> |stream| > COUNT_CEILING)
      && peakRetained == Min(|stream|, RETAINED_LIMIT)
      && (result.None? ==> Holding())
      && (result.Some? ==> Finished(canonicalize, stream, result.value))
    }

    ghost predicate Holding()
      reads this
    {
      Heap(NotBefore(canonicalize), heap) && Retains(canonicalize, stream, heap, dropped)
    }

    constructor (canonicalize: Canonicalize)
      ensures Valid() && stream == [] && result == None && this.canonicalize == canonicalize
    {
      this.canonicalize := canonicalize;
      heap, count, saturated, peakRetained, result := [], 0, false, 0, None;
      stream, dropped := [], [];
    }

    /** Adding after finishing is refused and changes nothing. */
    method AddUnique(candidate: Diagnostic) returns (accepted: bool)
      requires Valid()
      modifies this
      ensures Valid()
      ensures accepted == old(result).None? && result == old(result)
      ensures stream == if accepted then old(stream) + [candidate] else old(stream)
    {
      hide Finished, Heap, Retains;
      if result.Some? { return false; }
      accepted := true;
      HoldingSize();
      if count < COUNT_CEILING { count := count + 1; } else { saturated := true; }
      if |heap| < RETAINED_LIMIT {
        Append(candidate);
      } else {
        Contest(candidate);
      }
    }

    lemma HoldingSize()
      requires Holding()
      ensures |heap| == Min(|stream|, RETAINED_LIMIT)
    {
      RetainedSize(canonicalize, stream, heap, dropped);
    }

    /** Room is left: the candidate is kept. */
    method Append(candidate: Diagnostic)
      requires Holding() && |heap| < RETAINED_LIMIT
      modifies this`heap, this`stream, this`peakRetained
      ensures Holding() && stream == old(stream) + [candidate] && peakRetained == old(|heap|) + 1
    {
      hide Retains, Heap, HeapExceptAbove, Compare;
      RetainsAppend(canonicalize, stream, heap, dropped, candidate);
      AppendedAbove(NotBefore(canonicalize), heap, candidate);
      stream := stream + [candidate];
      var index := |heap|;
      heap := heap + [candidate];
      ghost var unsifted := heap;
      peakRetained := |heap|;
      SiftUp(index);
      RetainsPermuted(canonicalize, stream, unsifted, dropped, heap);
    }

    /** No room is left: the greatest of the retained ones and the candidate is dropped. */
    method Contest(candidate: Diagnostic)
      requires Holding() && |heap| == RETAINED_LIMIT
      modifies this`heap, this`stream, this`dropped
      ensures Holding() && stream == old(stream) + [candidate]
    {
      hide Retains, Heap, HeapExceptBelow, Compare;
      var order := CompareDiagnostics(candidate, heap[0], canonicalize);
      if order >= 0 {
        RetainsDrop(canonicalize, stream, heap, dropped, candidate);
        stream, dropped := stream + [candidate], dropped + [candidate];
        return;
      }
      RetainsReplace(canonicalize, stream, heap, dropped, candidate);
      ReplacedRoot(NotBefore(canonicalize), heap, candidate);
      stream, dropped := stream + [candidate], dropped + [heap[0]];
      heap := heap[0 := candidate];
      ghost var unsifted := heap;
      SiftDown();
      RetainsPermuted(canonicalize, stream, unsifted, dropped, heap);
    }

    method SiftUp(start: nat)
      requires start < |heap| && HeapExceptAbove(NotBefore(canonicalize), heap, start)
      modifies this`heap
      ensures Heap(NotBefore(canonicalize), heap) && multiset(heap) == old(multiset(heap))
    {
      OrderPreorders(canonicalize);
      ghost var le := NotBefore(canonicalize);
      hide HeapExceptAbove, Heap, Compare, TotalPreorder;
      var index := start;
      while index > 0
        invariant 0 <= index < |heap| && multiset(heap) == old(multiset(heap))
        invariant HeapExceptAbove(le, heap, index)
      {
        var parent := (index - 1) / 2;
        assert Child(parent, index);
        var order := CompareDiagnostics(heap[parent], heap[index], canonicalize);
        if order >= 0 { break; }
        FlipOrder(canonicalize, heap[parent], heap[index]);
        LiftStep(le, heap, index, parent);
        heap := heap[index := heap[parent]][parent := heap[index]];
        index := parent;
      }
      SettledAbove(le, heap, index);
    }

    method SiftDown()
      requires |heap| > 0 && HeapExceptBelow(NotBefore(canonicalize), heap, 0)
      modifies this`heap
      ensures Heap(NotBefore(canonicalize), heap) && multiset(heap) == old(multiset(heap))
    {
      OrderPreorders(canonicalize);
      ghost var le := NotBefore(canonicalize);
      hide HeapExceptBelow, Heap, Compare, TotalPreorder, FirstChild;
      var index := 0;
      while true
        invariant index < |heap| && multiset(heap) == old(multiset(heap))
        invariant HeapExceptBelow(le, heap, index)
        decreases |heap| - index
      {
        var left := 2 * index + 1;
        if left >= |heap| {
          SettledBelow(le, heap, index, |heap|);
          return;
        }
        var right, child := left + 1, left;
        if right < |heap| {
          var order := CompareDiagnostics(heap[right], heap[left], canonicalize);
          FlipOrder(canonicalize, heap[right], heap[left]);
          if order > 0 { child := right; }
        }
        ChosenChild(le, heap, index, child);
        var order := CompareDiagnostics(heap[index], heap[child], canonicalize);
        if order >= 0 {
          SettledBelow(le, heap, index, child);
          return;
        }
        FlipOrder(canonicalize, heap[index], heap[child]);
        SinkStep(le, heap, index, child);
        heap := heap[index := heap[child]][child := heap[index]];
        index := child;
      }
    }

    /** Finishing is idempotent and yields the least candidates in order. */
    method Finish() returns (out: seq<Diagnostic>)
      requires Valid()
      modifies this
      ensures Valid() && stream == old(stream) && result == Some(out)
      ensures Finished(canonicalize, stream, out)
      ensures old(result).Some? ==> out == old(result).value
    {
      hide Retains, Heap, Compare, NotAfter, NotBefore, Sort, Finished;
      if result.Some? { return result.value; }
      SortedRetained(canonicalize, stream, heap, dropped);
      heap := Sort(NotAfter(canonicalize), heap);
      if count > RETAINED_LIMIT {
        heap := heap[..|heap| - 1];
        out := heap + [Record(Output, Truncated, Coordinate(None, None, None, None), [], Omitted(count - |heap|))];
      } else {
        out := heap;
      }
      result := Some(out);
    }
  }

  lemma FlipOrder(canonicalize: Canonicalize, a: Diagnostic, b: Diagnostic)
    ensures Compare(a, b, canonicalize) < 0 <==> Compare(b, a, canonicalize) > 0
    ensures Compare(a, b, canonicalize) > 0 <==> Compare(b, a, canonicalize) < 0
    ensures NotBefore(canonicalize)(a, b) <==> Compare(a, b, canonicalize) >= 0
    ensures NotBefore(canonicalize)(b, a) <==> Compare(b, a, canonicalize) >= 0
  {
    CompareOrdering(canonicalize);
  }

  /** What finishing makes of the retained ones, in order. */
  lemma SortedRetained(canonicalize: Canonicalize, stream: seq<Diagnostic>, heap: seq<Diagnostic>,
                       dropped: seq<Diagnostic>)
    requires Retains(canonicalize, stream, heap, dropped)
    ensures var sorted := Sort(NotAfter(canonicalize), heap);
      && |sorted| == Min(|stream|, RETAINED_LIMIT)
      && (|stream| <= RETAINED_LIMIT ==> Finished(canonicalize, stream, sorted))
      && (|stream| > RETAINED_LIMIT ==>
            Finished(canonicalize, stream,
              sorted[..|sorted| - 1] + [TruncationRecord(Min(|stream|, COUNT_CEILING) - (|sorted| - 1))]))
  {
    hide Retains, Compare, NotAfter, NotBefore, Sort, Finished, TruncationRecord, TotalPreorder, SortedBy,
         Antisymmetric, LeastPart;
    OrderPreorders(canonicalize);
    SortCorrect(NotAfter(canonicalize), heap);
    var sorted := Sort(NotAfter(canonicalize), heap);
    RetainsPermuted(canonicalize, stream, heap, dropped, sorted);
    RetainedSize(canonicalize, stream, sorted, dropped);
    if |stream| <= RETAINED_LIMIT {
      FinishedWhole(canonicalize, stream, sorted);
    } else {
      LastDropped(canonicalize, stream, sorted, dropped);
      CeilingLeft(|stream|);
      FinishedCut(canonicalize, stream, sorted[..|sorted| - 1],
        sorted[..|sorted| - 1] + [TruncationRecord(Min(|stream|, COUNT_CEILING) - (|sorted| - 1))]);
    }
  }

  lemma CeilingLeft(n: nat)
    requires n > RETAINED_LIMIT
    ensures Min(n, RETAINED_LIMIT) == RETAINED_LIMIT
    ensures Min(n, COUNT_CEILING) - (RETAINED_LIMIT - 1) == Min(n - (RETAINED_LIMIT - 1), MAXIMUM_OMITTED)
  {
  }

  lemma FinishedWhole(canonicalize: Canonicalize, stream: seq<Diagnostic>, out: seq<Diagnostic>)
    requires |stream| <= RETAINED_LIMIT && SortedBy(NotAfter(canonicalize), out) && multiset(out) == multiset(stream)
    ensures Finished(canonicalize, stream, out)
  {
  }

  lemma FinishedCut(canonicalize: Canonicalize, stream: seq<Diagnostic>, kept: seq<Diagnostic>, out: seq<Diagnostic>)
    requires |stream| > RETAINED_LIMIT && |kept| == RETAINED_LIMIT - 1
    requires SortedBy(NotAfter(canonicalize), kept) && LeastPart(canonicalize, stream, kept)
    requires out == kept + [TruncationRecord(Min(|stream| - (RETAINED_LIMIT - 1), MAXIMUM_OMITTED))]
    ensures Finished(canonicalize, stream, out)
  {
    assert out[..RETAINED_LIMIT - 1] == kept;
  }

  lemma RetainedSize(canonicalize: Canonicalize, stream: seq<Diagnostic>, heap: seq<Diagnostic>,
                     dropped: seq<Diagnostic>)
    requires Retains(canonicalize, stream, heap, dropped)
    ensures |heap| == Min(|stream|, RETAINED_LIMIT) && |stream| == |heap| + |dropped|
    ensures |stream| <= RETAINED_LIMIT ==> dropped == [] && multiset(heap) == multiset(stream)
  {
    assert |multiset(stream)| == |stream| && |multiset(heap) + multiset(dropped)| == |heap| + |dropped|;
  }

  /** The last of the sorted retained ones gives way to the truncation record. */
  lemma LastDropped(canonicalize: Canonicalize, stream: seq<Diagnostic>, sorted: seq<Diagnostic>,
                    dropped: seq<Diagnostic>)
    requires Retains(canonicalize, stream, sorted, dropped)
    requires SortedBy(NotAfter(canonicalize), sorted)
    requires |sorted| == RETAINED_LIMIT
    ensures LeastPart(canonicalize, stream, sorted[..|sorted| - 1])
    ensures SortedBy(NotAfter(canonicalize), sorted[..|sorted| - 1])
  {
    hide Compare;
    var kept, last := sorted[..|sorted| - 1], sorted[|sorted| - 1];
    var rest := dropped + [last];
    assert sorted == kept + [last];
    forall i, j | 0 <= i < |kept| && 0 <= j < |rest| ensures Compare(kept[i], rest[j], canonicalize) <= 0 {
      assert kept[i] == sorted[i];
      if j == |dropped| { assert NotAfter(canonicalize)(sorted[i], sorted[|sorted| - 1]); }
    }
    assert Least(canonicalize, stream, kept, rest);
  }
}
