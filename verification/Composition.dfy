/**
 * Declarations and profiles as admitted, and how a list is indexed by identity (declaration-census.ts,
 * profile-census.ts).
 */
module Composition {
  import opened Sequences
  import opened Text

  datatype Capability = Capability(capabilityId: Id, token: string)

  datatype Bounds = Required | Optional | Many(min: nat, max: nat)

  datatype Slot = Slot(slotId: Id, capabilityId: Id, token: string, bounds: Bounds)

  datatype Declaration = Declaration(moduleId: Id, implementationId: Id, capabilities: seq<Capability>,
    slots: seq<Slot>)

  datatype Selection = Selection(moduleId: Id, implementationId: Id)

  datatype Binding = Binding(consumer: Id, slotId: Id, providers: seq<Id>)

  datatype Profile = Profile(profileId: Id, roots: seq<Id>, selections: seq<Selection>, bindings: seq<Binding>)

  function CapabilityIdOf(c: Capability): Id { c.capabilityId }
  function SlotIdOf(s: Slot): Id { s.slotId }
  function ImplementationOf(d: Declaration): Id { d.implementationId }
  function SelectedModule(s: Selection): Id { s.moduleId }
  function ConsumerOf(b: Binding): Id { b.consumer }
  function BoundSlot(b: Binding): Id { b.slotId }
  function Itself(id: Id): Id { id }

  // ---------- indexing by identity ----------

  /** The elements with this identity, in order. */
  function Matching<T>(xs: seq<T>, key: T -> Id, id: Id): seq<T> {
    if xs == [] then []
    else
      var rest, x := Matching(xs[..|xs| - 1], key, id), xs[|xs| - 1];
      if key(x) == id then rest + [x] else rest
  }

  /** An identity names nothing, one thing, or is ambiguous. */
  datatype Found<+T> = Absent | Ambiguous | Unique(value: T)

  function FindOne<T>(xs: seq<T>, key: T -> Id, id: Id): Found<T> {
    var m := Matching(xs, key, id);
    if |m| == 0 then Absent else if |m| == 1 then Unique(m[0]) else Ambiguous
  }

  lemma {:induction false} MatchingMembers<T>(xs: seq<T>, key: T -> Id, id: Id)
    ensures forall x :: x in Matching(xs, key, id) <==> x in xs && key(x) == id
  {
    if xs != [] {
      MatchingMembers(xs[..|xs| - 1], key, id);
      assert xs == xs[..|xs| - 1] + [xs[|xs| - 1]];
    }
  }

  lemma MatchingMember<T>(xs: seq<T>, key: T -> Id, id: Id, x: T)
    ensures x in Matching(xs, key, id) <==> x in xs && key(x) == id
  {
    MatchingMembers(xs, key, id);
  }

  lemma {:induction false} MatchingCounts<T>(xs: seq<T>, key: T -> Id, id: Id, x: T)
    ensures multiset(Matching(xs, key, id))[x] == if key(x) == id then multiset(xs)[x] else 0
  {
    if xs != [] {
      MatchingCounts(xs[..|xs| - 1], key, id, x);
      assert xs == xs[..|xs| - 1] + [xs[|xs| - 1]];
    }
  }

  /** The order of a list decides nothing about what its identities name. */
  lemma MatchingPermuted<T>(xs: seq<T>, ys: seq<T>, key: T -> Id, id: Id)
    requires multiset(xs) == multiset(ys)
    ensures multiset(Matching(xs, key, id)) == multiset(Matching(ys, key, id))
    ensures |Matching(xs, key, id)| == |Matching(ys, key, id)|
    ensures FindOne(xs, key, id) == FindOne(ys, key, id)
  {
    var a, b := Matching(xs, key, id), Matching(ys, key, id);
    forall x ensures multiset(a)[x] == multiset(b)[x] {
      MatchingCounts(xs, key, id, x);
      MatchingCounts(ys, key, id, x);
    }
    hide Matching;
    SameCounts(a, b);
    MembersOfMultiset(a, b);
    if |a| == 1 {
      var y := a[0];
      assert y in a;
    }
  }

  lemma SameCounts<T>(a: seq<T>, b: seq<T>)
    requires forall x :: multiset(a)[x] == multiset(b)[x]
    ensures multiset(a) == multiset(b)
  {
  }

  lemma {:induction false} FindOneMeans<T>(xs: seq<T>, key: T -> Id, id: Id)
    ensures FindOne(xs, key, id) == Absent <==> forall x :: x in xs ==> key(x) != id
    ensures FindOne(xs, key, id) == Ambiguous <==> exists i, j ::
      0 <= i < j < |xs| && key(xs[i]) == id && key(xs[j]) == id
    ensures FindOne(xs, key, id).Unique? ==> FindOne(xs, key, id).value in xs && key(FindOne(xs, key, id).value) == id
    ensures FindOne(xs, key, id).Unique? ==> forall x :: x in xs && key(x) == id ==> x == FindOne(xs, key, id).value
  {
    if xs != [] {
      var front, last := xs[..|xs| - 1], xs[|xs| - 1];
      FindOneMeans(front, key, id);
      MatchingMembers(front, key, id);
      assert xs == front + [last];
      if FindOne(xs, key, id) == Ambiguous && FindOne(front, key, id) != Ambiguous {
        assert FindOne(front, key, id).Unique?;
        var i :| 0 <= i < |front| && front[i] == FindOne(front, key, id).value;
        assert key(xs[i]) == id && key(xs[|xs| - 1]) == id;
      }
      if i, j :| 0 <= i < j < |xs| && key(xs[i]) == id && key(xs[j]) == id {
        if j < |front| { assert key(front[i]) == id && key(front[j]) == id; } else { assert front[i] in front; }
      }
    }
  }

  /** A list grouped by identity: the identities in order of first appearance, and the elements of each. */
  ghost predicate Grouped<T>(xs: seq<T>, key: T -> Id, order: seq<Id>, groups: map<Id, seq<T>>) {
    && Distinct(order) && (forall id :: id in order <==> id in groups)
    && (forall id :: id in groups ==> groups[id] == Matching(xs, key, id) && groups[id] != [])
    && (forall x :: x in xs ==> key(x) in groups)
  }

  lemma GroupedMore<T>(xs: seq<T>, key: T -> Id, order: seq<Id>, groups: map<Id, seq<T>>, x: T)
    requires Grouped(xs, key, order, groups)
    ensures key(x) in groups ==> Grouped(xs + [x], key, order, groups[key(x) := groups[key(x)] + [x]])
    ensures key(x) !in groups ==> Grouped(xs + [x], key, order + [key(x)], groups[key(x) := [x]])
  {
    assert (xs + [x])[..|xs|] == xs;
    MatchingMembers(xs, key, key(x));
    var m := Matching(xs, key, key(x));
    if |m| > 0 {
      var y := m[0];
      MatchingMember(xs, key, key(x), y);
      assert key(y) in groups;
    }
  }

  method GroupBy<T>(xs: seq<T>, key: T -> Id) returns (order: seq<Id>, groups: map<Id, seq<T>>)
    ensures Grouped(xs, key, order, groups)
  {
    order, groups := [], map[];
    assert Grouped(xs[..0], key, order, groups);
    for i := 0 to |xs|
      invariant Grouped(xs[..i], key, order, groups)
    {
      var x := xs[i];
      GroupedMore(xs[..i], key, order, groups, x);
      assert xs[..i + 1] == xs[..i] + [x];
      if key(x) in groups {
        groups := groups[key(x) := groups[key(x)] + [x]];
      } else {
        order, groups := order + [key(x)], groups[key(x) := [x]];
      }
    }
    assert xs[..|xs|] == xs;
  }

  lemma GroupedLookup<T>(xs: seq<T>, key: T -> Id, order: seq<Id>, groups: map<Id, seq<T>>, id: Id)
    requires Grouped(xs, key, order, groups)
    ensures id in groups <==> exists x :: x in xs && key(x) == id
    ensures id !in groups ==> Matching(xs, key, id) == []
  {
    MatchingMembers(xs, key, id);
    var m := Matching(xs, key, id);
    if |m| > 0 {
      var y := m[0];
      MatchingMember(xs, key, id, y);
      assert key(y) in groups;
    }
  }
}
