/** Array-shaped binary heaps over any total preorder: what one step of a walk up or down keeps. */
module Heaps {
  import opened Sequences

  ghost predicate Child(p: int, c: int) {
    c == 2 * p + 1 || c == 2 * p + 2
  }

  ghost predicate Heap<T>(le: (T, T) -> bool, items: seq<T>) {
    forall p, c :: 0 <= p < c < |items| && Child(p, c) ==> le(items[p], items[c])
  }

  /** The order fails at most between position `at` and its parent. */
  ghost predicate HeapExceptAbove<T>(le: (T, T) -> bool, items: seq<T>, at: nat) {
    && (forall p, c :: 0 <= p < c < |items| && Child(p, c) && c != at ==> le(items[p], items[c]))
    && Bridged(le, items, at)
  }

  /** The order fails at most between position `at` and its children. */
  ghost predicate HeapExceptBelow<T>(le: (T, T) -> bool, items: seq<T>, at: nat) {
    && (forall p, c :: 0 <= p < c < |items| && Child(p, c) && p != at ==> le(items[p], items[c]))
    && Bridged(le, items, at)
  }

  /** The parent of `at` is in order with the children of `at`. */
  ghost predicate Bridged<T>(le: (T, T) -> bool, items: seq<T>, at: nat) {
    forall p, c :: 0 <= p < at < c < |items| && Child(p, at) && Child(at, c) ==> le(items[p], items[c])
  }

  ghost predicate FirstChild<T>(le: (T, T) -> bool, items: seq<T>, at: nat, child: nat)
    requires child < |items|
  {
    && Child(at, child)
    && forall c :: at < c < |items| && Child(at, c) ==> le(items[child], items[c])
  }

  ghost function Swapped<T>(items: seq<T>, i: nat, j: nat): (r: seq<T>)
    requires i < |items| && j < |items|
    ensures |r| == |items|
  {
    items[i := items[j]][j := items[i]]
  }

  lemma SwapContents<T>(items: seq<T>, i: nat, j: nat)
    requires i < |items| && j < |items|
    ensures multiset(Swapped(items, i, j)) == multiset(items)
  {
    if i == j {
      assert Swapped(items, i, j) == items;
    } else {
      var a := items[i := items[j]];
      assert multiset(a) == multiset(items) - multiset{items[i]} + multiset{items[j]};
      assert a[j] == items[j];
      assert multiset(a[j := items[i]]) == multiset(a) - multiset{items[j]} + multiset{items[i]};
    }
  }

  lemma {:induction false} RootIsFirst<T(!new)>(le: (T, T) -> bool, items: seq<T>, i: nat)
    requires TotalPreorder(le) && Heap(le, items) && i < |items|
    ensures le(items[0], items[i])
  {
    if i != 0 {
      RootIsFirst(le, items, (i - 1) / 2);
      assert Child((i - 1) / 2, i);
    }
  }

  /** Exchanging the element with its parent moves the place where the order may fail one level up. */
  lemma LiftStep<T(!new)>(le: (T, T) -> bool, items: seq<T>, at: nat, parent: nat)
    requires TotalPreorder(le) && parent < at < |items| && Child(parent, at)
    requires HeapExceptAbove(le, items, at) && le(items[at], items[parent])
    ensures HeapExceptAbove(le, Swapped(items, at, parent), parent)
    ensures multiset(Swapped(items, at, parent)) == multiset(items)
  {
    SwapContents(items, at, parent);
    var b := Swapped(items, at, parent);
    forall p, c | 0 <= p < c < |b| && Child(p, c) && c != parent ensures le(b[p], b[c]) {
      if p != parent && p != at { assert le(items[p], items[c]); }
      if p == parent && c != at { assert le(items[p], items[c]); }
      if p == at { assert le(items[parent], items[c]); }
    }
    forall p, c | 0 <= p < parent < c < |b| && Child(p, parent) && Child(parent, c) ensures le(b[p], b[c]) {
      assert le(items[p], items[parent]);
      assert c == at || le(items[parent], items[c]);
    }
  }

  /** Exchanging the element with its first child moves that place one level down. */
  lemma SinkStep<T(!new)>(le: (T, T) -> bool, items: seq<T>, at: nat, child: nat)
    requires TotalPreorder(le) && at < child < |items|
    requires HeapExceptBelow(le, items, at) && FirstChild(le, items, at, child) && le(items[child], items[at])
    ensures HeapExceptBelow(le, Swapped(items, at, child), child)
    ensures multiset(Swapped(items, at, child)) == multiset(items)
  {
    SwapContents(items, at, child);
    var b := Swapped(items, at, child);
    forall p, c | 0 <= p < c < |b| && Child(p, c) && p != child ensures le(b[p], b[c]) {
      if p != at && c != at { assert le(items[p], items[c]); }
      if c == at { assert le(items[p], items[child]); }
    }
    forall p, c | 0 <= p < child < c < |b| && Child(p, child) && Child(child, c) ensures le(b[p], b[c]) {
      assert p == at;
      assert le(items[child], items[c]);
    }
  }

  lemma SettledAbove<T(!new)>(le: (T, T) -> bool, items: seq<T>, at: nat)
    requires HeapExceptAbove(le, items, at) && at < |items|
    requires at == 0 || le(items[(at - 1) / 2], items[at])
    ensures Heap(le, items)
  {
    forall p, c | 0 <= p < c < |items| && Child(p, c) ensures le(items[p], items[c]) {
      assert c == at ==> p == (at - 1) / 2;
    }
  }

  lemma SettledBelow<T(!new)>(le: (T, T) -> bool, items: seq<T>, at: nat, child: nat)
    requires TotalPreorder(le) && at < |items| && HeapExceptBelow(le, items, at)
    requires child < |items| ==> at < child && FirstChild(le, items, at, child) && le(items[at], items[child])
    requires child >= |items| ==> |items| <= 2 * at + 1
    ensures Heap(le, items)
  {
  }

  /** The child the code compares with: the right one when it is strictly first. */
  lemma ChosenChild<T(!new)>(le: (T, T) -> bool, items: seq<T>, at: nat, child: nat)
    requires TotalPreorder(le) && child < |items| && 2 * at + 1 < |items|
    requires child ==
      if 2 * at + 2 < |items| && !le(items[2 * at + 1], items[2 * at + 2]) then 2 * at + 2 else 2 * at + 1
    ensures FirstChild(le, items, at, child)
  {
  }

  lemma AppendedAbove<T(!new)>(le: (T, T) -> bool, items: seq<T>, value: T)
    requires Heap(le, items)
    ensures HeapExceptAbove(le, items + [value], |items|)
  {
  }

  lemma ReplacedRoot<T(!new)>(le: (T, T) -> bool, items: seq<T>, value: T)
    requires Heap(le, items) && items != []
    ensures HeapExceptBelow(le, items[0 := value], 0)
  {
  }

  lemma DroppedLast<T(!new)>(le: (T, T) -> bool, items: seq<T>)
    requires Heap(le, items) && items != []
    ensures Heap(le, items[..|items| - 1])
  {
  }
}
