/** Where a document, finished or not, repeats a name inside one object. */
module DuplicateNames {
  import opened Sequences
  import opened Paths
  import opened JsonTree

  ghost function TagNames(tag: Tag): set<string> { if tag.Key? then {tag.text} else {} }

  ghost function Names(es: seq<Entry>): set<string> {
    if es == [] then {} else Names(es[..|es| - 1]) + TagNames(es[|es| - 1].tag)
  }

  ghost function Under(s: Segment, paths: seq<Path>): (r: seq<Path>)
    ensures |r| == |paths|
  {
    seq(|paths|, i requires 0 <= i < |paths| => [s] + paths[i])
  }

  /** The path of a name that was already seen. */
  ghost function Repeated(seen: set<string>, tag: Tag): seq<Path> {
    if tag.Key? && tag.text in seen then [[Field(tag.text)]] else []
  }

  /** The paths of all repeated names, in the order in which they are read. */
  ghost function Duplicates(v: Json): seq<Path>
    decreases v, 0
  {
    match v
    case Scalar(_) => []
    case Container(_, es, phase) => DuplicatesIn(es) + if Pending(phase) then Repeated(Names(es), phase.key) else []
  }

  ghost function DuplicatesIn(es: seq<Entry>): seq<Path>
    decreases es, 1
  {
    if es == [] then []
    else
      var n := |es| - 1;
      DuplicatesIn(es[..n]) + Repeated(Names(es[..n]), es[n].tag) + DuplicatesOf(n, es[n])
  }

  ghost function DuplicatesOf(i: nat, e: Entry): seq<Path>
    decreases e, 0
  {
    Under(SegmentOf(e.tag, i), Duplicates(e.value))
  }

  lemma PushNames(es: seq<Entry>, e: Entry)
    ensures Names(es + [e]) == Names(es) + TagNames(e.tag)
    ensures DuplicatesIn(es + [e]) == DuplicatesIn(es) + Repeated(Names(es), e.tag) + DuplicatesOf(|es|, e)
  {
    assert (es + [e])[..|es|] == es;
  }

  /** The path of the innermost open container. */
  function Here(v: Json): Path
    requires Open(v)
    decreases v
  {
    if Innermost(v) then []
    else
      var n := |v.entries| - 1;
      [SegmentOf(v.entries[n].tag, n)] + Here(v.entries[n].value)
  }

  predicate NameExpected(v: Json)
    requires Open(v)
  {
    v.record && (v.phase == First || v.phase == Next)
  }

  ghost function Discovered(v: Json, t: Token): seq<Path>
    requires Open(v)
  {
    if NameExpected(v) && t.StringToken? then Repeated(Names(v.entries), Key(t.text, t.bytes)) else []
  }

  ghost function DiscoveredBelow(v: Json, t: Token): seq<Path>
    requires Open(v)
    decreases v
  {
    if Innermost(v) then Discovered(v, t)
    else
      var n := |v.entries| - 1;
      Under(SegmentOf(v.entries[n].tag, n), DiscoveredBelow(v.entries[n].value, t))
  }

  /** The repeated name that t is, if it is one. */
  lemma {:induction false} DiscoveredPath(v: Json, t: Token)
    requires Open(v)
    ensures var u := InnermostOf(v);
      DiscoveredBelow(v, t) ==
        if NameExpected(u) && t.StringToken? && t.text in Names(u.entries) then [Here(v) + [Field(t.text)]] else []
    decreases v
  {
    hide Names;
    if Innermost(v) {
      if t.StringToken? { assert Here(v) + [Field(t.text)] == [Field(t.text)]; }
    } else {
      var n := |v.entries| - 1;
      var last := v.entries[n].value;
      DiscoveredPath(last, t);
      if t.StringToken? {
        assert Here(v) + [Field(t.text)] == [SegmentOf(v.entries[n].tag, n)] + (Here(last) + [Field(t.text)]);
      }
    }
  }

  lemma StartDuplicates(t: Token)
    requires Start(t).Some?
    ensures Duplicates(Start(t).value) == []
  {
  }

  lemma ContainerDuplicates(v: Json)
    requires v.Container?
    ensures Duplicates(v) == DuplicatesIn(v.entries)
      + if Pending(v.phase) then Repeated(Names(v.entries), v.phase.key) else []
  {
  }

  lemma OfStart(i: nat, e: Entry)
    requires Duplicates(e.value) == []
    ensures DuplicatesOf(i, e) == []
  {
  }

  lemma PlacedDuplicates(v: Json, t: Token)
    requires Open(v) && ValueExpected(v) && Start(t).Some? && PhaseFits(v.record, |v.entries|, v.phase)
    ensures Duplicates(Placed(v, Start(t).value)) == Duplicates(v)
  {
    hide Duplicates, DuplicatesIn, DuplicatesOf, Start, Names, Repeated;
    var e := Entry(if v.record then v.phase.key else Position, Start(t).value);
    StartDuplicates(t);
    PushNames(v.entries, e);
    OfStart(|v.entries|, e);
    ContainerDuplicates(v);
    ContainerDuplicates(Placed(v, Start(t).value));
    NothingRepeated(Names(v.entries));
    assert DuplicatesIn(v.entries) + Repeated(Names(v.entries), e.tag) + [] + [] ==
      DuplicatesIn(v.entries) + Repeated(Names(v.entries), e.tag);
  }

  lemma NothingRepeated(seen: set<string>)
    ensures Repeated(seen, Position) == []
  {
  }

  lemma MovedDuplicates(v: Json, t: Token, w: Json)
    requires Open(v) && PhaseFits(v.record, |v.entries|, v.phase)
    requires !(ValueExpected(v) && Start(t).Some?) && Local(v, t) == Some(w)
    ensures Duplicates(w) == Duplicates(v) + Discovered(v, t)
  {
    hide Duplicates, DuplicatesIn, DuplicatesOf, Start, Names, Repeated;
    ContainerDuplicates(v);
    ContainerDuplicates(w);
  }

  lemma LocalDuplicates(v: Json, t: Token)
    requires Open(v) && Partial(v) && Innermost(v) && Local(v, t).Some?
    ensures Duplicates(Local(v, t).value) == Duplicates(v) + Discovered(v, t)
  {
    PendingKeys(v);
    hide Duplicates, Partial, Local, Start, Repeated;
    if ValueExpected(v) && Start(t).Some? {
      PlacedDuplicates(v, t);
      PlacedLocal(v, t);
      assert Duplicates(v) + [] == Duplicates(v);
    } else {
      MovedDuplicates(v, t, Local(v, t).value);
    }
  }

  lemma WithLastDuplicates(v: Json, w: Json, found: seq<Path>)
    requires Open(v)
    requires v.phase == After
    requires v.entries != []
    requires Duplicates(w) == Duplicates(v.entries[|v.entries| - 1].value) + found
    ensures Duplicates(WithLast(v, w)) ==
      Duplicates(v) + Under(SegmentOf(v.entries[|v.entries| - 1].tag, |v.entries| - 1), found)
  {
    hide Duplicates, DuplicatesIn, DuplicatesOf, Names, Repeated;
    var n := |v.entries| - 1;
    var e, f := v.entries[n], v.entries[n].(value := w);
    assert v.entries[..n] + [e] == v.entries;
    PushNames(v.entries[..n], e);
    PushNames(v.entries[..n], f);
    ContainerDuplicates(v);
    ContainerDuplicates(WithLast(v, w));
    OfGrows(n, e, w, found);
  }

  lemma OfGrows(i: nat, e: Entry, w: Json, found: seq<Path>)
    requires Duplicates(w) == Duplicates(e.value) + found
    ensures DuplicatesOf(i, e.(value := w)) == DuplicatesOf(i, e) + Under(SegmentOf(e.tag, i), found)
  {
  }

  /** Reading a token adds exactly the path of the name it repeats. */
  lemma {:induction false} ExtendDuplicates(v: Json, t: Token)
    requires Partial(v) && Open(v) && Extend(v, t).Some?
    ensures Duplicates(Extend(v, t).value) == Duplicates(v) + DiscoveredBelow(v, t)
    decreases v
  {
    hide Duplicates, Local, WithLast, Discovered, Under;
    if Innermost(v) {
      LocalDuplicates(v, t);
    } else {
      var last := v.entries[|v.entries| - 1].value;
      ExtendDuplicates(last, t);
      WithLastDuplicates(v, Extend(last, t).value, DiscoveredBelow(last, t));
    }
  }

  // ---- documents that repeat nothing ----

  /** No object, at any depth, has two members of the same name. */
  ghost predicate DistinctNames(v: Json)
    decreases v
  {
    v.Container? ==>
      && (forall i, j ::
        0 <= i < j < |v.entries| && v.entries[i].tag.Key? && v.entries[j].tag.Key? ==>
          v.entries[i].tag.text != v.entries[j].tag.text)
      && forall i :: 0 <= i < |v.entries| ==> DistinctNames(v.entries[i].value)
  }

  lemma {:induction false} NamesAre(es: seq<Entry>, name: string)
    ensures name in Names(es) <==> exists i :: 0 <= i < |es| && es[i].tag.Key? && es[i].tag.text == name
  {
    if es != [] {
      var n := |es| - 1;
      NamesAre(es[..n], name);
      if name in Names(es[..n]) {
        var i :| 0 <= i < n && es[..n][i].tag.Key? && es[..n][i].tag.text == name;
        assert es[i].tag.Key?;
      }
      if i :| 0 <= i < |es| && es[i].tag.Key? && es[i].tag.text == name {
        if i < n { assert es[..n][i].tag.Key?; }
      }
    }
  }

  /** Nothing is reported of a finished document exactly when every object's names are distinct. */
  lemma {:induction false} NoDuplicates(v: Json)
    requires Whole(v)
    ensures Duplicates(v) == [] <==> DistinctNames(v)
    decreases v, 0
  {
    if v.Container? { NoDuplicatesIn(v.record, v.entries); }
  }

  ghost predicate DistinctEntries(es: seq<Entry>) {
    && (forall i, j :: 0 <= i < j < |es| && es[i].tag.Key? && es[j].tag.Key? ==> es[i].tag.text != es[j].tag.text)
    && forall i :: 0 <= i < |es| ==> DistinctNames(es[i].value)
  }

  lemma {:induction false} NoDuplicatesIn(record: bool, es: seq<Entry>)
    requires WholeEntries(record, es)
    ensures DuplicatesIn(es) == [] <==> DistinctEntries(es)
    decreases es, 1
  {
    hide Duplicates, DistinctNames, WholeEntry, WholeEntries;
    if es != [] {
      var n := |es| - 1;
      LastEntry(record, es);
      NoDuplicatesIn(record, es[..n]);
      NoDuplicatesOf(n, es[n]);
      DistinctPush(es[..n], es[n]);
      assert es[..n] + [es[n]] == es;
    }
  }

  lemma {:induction false} NoDuplicatesOf(i: nat, e: Entry)
    requires Whole(e.value)
    ensures DuplicatesOf(i, e) == [] <==> DistinctNames(e.value)
    decreases e, 0
  {
    NoDuplicates(e.value);
  }

  lemma DistinctPush(es: seq<Entry>, e: Entry)
    ensures DistinctEntries(es + [e]) <==>
      DistinctEntries(es) && (e.tag.Key? ==> e.tag.text !in Names(es)) && DistinctNames(e.value)
  {
    hide Names, DistinctNames;
    var all := es + [e];
    if e.tag.Key? { NamesAre(es, e.tag.text); }
    if DistinctEntries(all) {
      forall i, j | 0 <= i < j < |es| && es[i].tag.Key? && es[j].tag.Key? ensures es[i].tag.text != es[j].tag.text {
        assert all[i] == es[i] && all[j] == es[j];
      }
      forall i | 0 <= i < |es| ensures DistinctNames(es[i].value) { assert all[i] == es[i]; }
      assert all[|es|] == e;
      if e.tag.Key? {
        forall i | 0 <= i < |es| && es[i].tag.Key? ensures es[i].tag.text != e.tag.text { assert all[i] == es[i]; }
      }
    }
  }
}
