/** The numeric min-heap that hands out the smallest ready rank (ready-queue.ts). */
module ReadyQueues {
  import opened Sequences
  import opened Heaps

  predicate AtMost(a: nat, b: nat) { a <= b }

  /** `items` with `value` put into the hole, as the walk will leave it. */
  ghost function Plugged(items: seq<nat>, hole: nat, value: nat): (r: seq<nat>)
    requires hole < |items|
    ensures |r| == |items|
  {
    items[hole := value]
  }

  /** Moving the hole is exchanging the held-back value with the element moved. */
  lemma HoleIsSwap(items: seq<nat>, hole: nat, next: nat, value: nat)
    requires hole < |items| && next < |items| && hole != next
    ensures Plugged(items[hole := items[next]], next, value) == Swapped(Plugged(items, hole, value), hole, next)
    ensures Plugged(items, hole, value)[hole] == value && Plugged(items, hole, value)[next] == items[next]
  {
  }

  /** The chosen child of the hole, seen with the hole plugged. */
  lemma ChildOfHole(items: seq<nat>, hole: nat, child: nat, value: nat)
    requires 2 * hole + 1 < |items| && child < |items|
    requires child ==
      if 2 * hole + 2 < |items| && items[2 * hole + 2] < items[2 * hole + 1] then 2 * hole + 2 else 2 * hole + 1
    ensures FirstChild(AtMost, Plugged(items, hole, value), hole, child)
    ensures Plugged(items, hole, value)[hole] == value && Plugged(items, hole, value)[child] == items[child]
  {
    ChosenChild(AtMost, Plugged(items, hole, value), hole, child);
  }

  lemma ParentOfHole(items: seq<nat>, hole: nat, value: nat)
    requires 0 < hole < |items|
    ensures Child((hole - 1) / 2, hole)
    ensures Plugged(items, hole, value)[hole] == value
    ensures Plugged(items, hole, value)[(hole - 1) / 2] == items[(hole - 1) / 2]
  {
  }

  /** Dropping the last element and holding it back for the root. */
  lemma TakeStart(before: seq<nat>)
    requires Heap(AtMost, before) && before != []
    ensures forall x :: x in before ==> before[0] <= x
    ensures var items, last := before[..|before| - 1], before[|before| - 1];
            && Heap(AtMost, items)
            && (items == [] ==> multiset(before) == multiset(items) + multiset{before[0]})
            && (items != [] ==> HeapExceptBelow(AtMost, Plugged(items, 0, last), 0))
            && (items != [] ==> multiset(Plugged(items, 0, last)) + multiset{before[0]} == multiset(before))
  {
    forall i | 0 <= i < |before| ensures before[0] <= before[i] { RootIsFirst(AtMost, before, i); }
    var items, last := before[..|before| - 1], before[|before| - 1];
    DroppedLast(AtMost, before);
    assert before == items + [last];
    if items != [] {
      ReplacedRoot(AtMost, items, last);
      assert items == [before[0]] + items[1..];
      assert items[0 := last] == [last] + items[1..];
    }
  }

  class ReadyQueue {
    var items: seq<nat>
    var peakSize: nat

    ghost predicate Valid()
      reads this
    {
      Heap(AtMost, items) && |items| <= peakSize
    }

    constructor ()
      ensures Valid() && items == [] && peakSize == 0
    {
      items, peakSize := [], 0;
    }

    method Push(value: nat)
      requires Valid()
      modifies this
      ensures Valid()
      ensures multiset(items) == old(multiset(items)) + multiset{value}
      ensures peakSize == Max(old(peakSize), |items|)
    {
      AppendedAbove(AtMost, items, value);
      hide HeapExceptAbove, Heap, Plugged, Child, Swapped;
      var index := |items|;
      items := items + [value];
      peakSize := Max(peakSize, |items|);
      PlugSame(items, index);
      while index > 0
        invariant 0 <= index < |items| == old(|items|) + 1
        invariant multiset(Plugged(items, index, value)) == old(multiset(items)) + multiset{value}
        invariant HeapExceptAbove(AtMost, Plugged(items, index, value), index)
        invariant peakSize == Max(old(peakSize), |items|)
        decreases index
      {
        var parent := (index - 1) / 2;
        ParentOfHole(items, index, value);
        if items[parent] <= value { break; }
        LiftStep(AtMost, Plugged(items, index, value), index, parent);
        HoleIsSwap(items, index, parent, value);
        items := items[index := items[parent]];
        index := parent;
      }
      SettledAbove(AtMost, Plugged(items, index, value), index);
      PlugIs(items, index, value);
      items := items[index := value];
    }

    method Take() returns (first: nat)
      requires Valid() && items != []
      modifies this
      ensures Valid()
      ensures old(multiset(items)) == multiset(items) + multiset{first}
      ensures forall x :: x in old(items) ==> first <= x
      ensures peakSize == old(peakSize)
    {
      hide HeapExceptBelow, Heap, Plugged, Child, Swapped, FirstChild;
      ghost var before := items;
      first := items[0];
      var last := items[|items| - 1];
      items := items[..|items| - 1];
      TakeStart(before);
      if |items| > 0 {
        var index := 0;
        while index * 2 + 1 < |items|
          invariant 0 <= index < |items| == |before| - 1
          invariant multiset(Plugged(items, index, last)) + multiset{first} == multiset(before)
          invariant HeapExceptBelow(AtMost, Plugged(items, index, last), index)
          invariant peakSize == old(peakSize)
          decreases |items| - index
        {
          var child := index * 2 + 1;
          if child + 1 < |items| && items[child + 1] < items[child] { child := child + 1; }
          ChildOfHole(items, index, child, last);
          if items[child] >= last {
            SettledBelow(AtMost, Plugged(items, index, last), index, child);
            break;
          }
          SinkStep(AtMost, Plugged(items, index, last), index, child);
          HoleIsSwap(items, index, child, last);
          items := items[index := items[child]];
          index := child;
        }
        if |items| <= index * 2 + 1 { SettledBelow(AtMost, Plugged(items, index, last), index, |items|); }
        PlugIs(items, index, last);
        items := items[index := last];
      }
    }
  }

  lemma PlugSame(items: seq<nat>, hole: nat)
    requires hole < |items|
    ensures Plugged(items, hole, items[hole]) == items
  {
  }

  lemma PlugIs(items: seq<nat>, hole: nat, value: nat)
    requires hole < |items|
    ensures Plugged(items, hole, value) == items[hole := value]
  {
  }
}
