/** The grouped replay of repeated names over the committed prefix of a document (raw-duplicate-replay.ts). */
module DuplicateReplay {
  import opened Sequences
  import opened Paths
  import opened JsonTree
  import opened JsonLayout
  import opened DuplicateNames
  import opened DocumentShape
  import opened ReplayReading
  import opened ReplayGroups

  datatype Span = Span(start: nat, end: nat)

  datatype Group = Group(spans: seq<Span>, duplicate: bool)

  datatype NamedGroup = NamedGroup(name: string, group: Group)

  /** An array being read in step with others: `at` is the token read last. */
  datatype ArrayCursor = ArrayCursor(start: nat, end: nat, at: nat)

  // ---- the parts of a value that may be cut off ----

  lemma PartPartial(w: Json, i: nat)
    requires Partial(w) && w.Container? && i < |w.entries|
    ensures Partial(w.entries[i].value) && (w.entries[i].tag.Key? <==> w.record)
    ensures Open(w.entries[i].value) ==> i == |w.entries| - 1 && w.phase == After
  {
    var n := |w.entries| - 1;
    if Open(w) && w.phase == After {
      if i < n {
        assert w.entries[..n][i] == w.entries[i];
        assert WholeEntry(w.record, w.entries[..n][i]);
        WholePartial(w.entries[i].value);
      }
    } else {
      assert WholeEntries(w.record, w.entries);
      assert WholeEntry(w.record, w.entries[i]);
      WholePartial(w.entries[i].value);
    }
  }

  lemma PhaseIs(w: Json)
    requires Partial(w) && w.Container?
    ensures w.phase == Closed || PhaseFits(w.record, |w.entries|, w.phase)
  {
  }

  /** Where the part i stands, and that it may be read there. */
  lemma PartHere(tokens: seq<Token>, start: nat, end: nat, w: Json, i: nat)
    requires Stretch(tokens, start, end, w) && w.Container? && i < |w.entries|
    ensures ValueHere(tokens, start + ValueAt(w, i), end, w.entries[i].value)
    ensures start + At(w, i + 1) <= end && At(w, i + 1) == ValueAt(w, i) + |Spell(w.entries[i].value)|
    ensures At(w, i) < At(w, i + 1)
  {
    hide Spell, Partial, At, KeyAt, ValueAt, SpellTag, Separator, Ending;
    PartPartial(w, i);
    EntryLayout(w, i);
    NotEmpty(w.entries[i].value);
    InnerStretch(tokens, start, end, Spell(w.entries[i].value), ValueAt(w, i));
    ContainerLayout(w);
    OffsetsGrow(w, i);
    if Open(w.entries[i].value) { NoEnding(w); }
  }

  lemma OffsetsGrow(w: Json, i: nat)
    requires w.Container? && i < |w.entries|
    ensures At(w, i) <= KeyAt(w, i) <= ValueAt(w, i)
  {
  }

  lemma NoEnding(w: Json)
    requires w.Container? && w.phase == After
    ensures Ending(w.record, |w.entries|, w.phase) == []
  {
  }

  /** The tokens between the parts. */
  lemma BetweenParts(tokens: seq<Token>, start: nat, end: nat, w: Json, i: nat)
    requires Stretch(tokens, start, end, w) && w.Container? && i < |w.entries|
    ensures KeyAt(w, i) == At(w, i) + (if i > 0 then 1 else 0)
    ensures i > 0 ==> Peek(tokens, start + At(w, i), end) == Comma
    ensures w.record ==> w.entries[i].tag.Key? && ValueAt(w, i) == KeyAt(w, i) + 2
    ensures w.record ==> Peek(tokens, start + KeyAt(w, i), end) == KeyToken(w.entries[i].tag)
    ensures w.record ==> Peek(tokens, start + KeyAt(w, i) + 1, end) == Colon
    ensures !w.record ==> ValueAt(w, i) == KeyAt(w, i)
  {
    hide Spell, Partial, At;
    PartPartial(w, i);
    EntryLayout(w, i);
    PartHere(tokens, start, end, w, i);
    if i > 0 { HoldsOne(Spell(w), At(w, i), Comma); TokenAt(tokens, start, end, w, At(w, i)); }
    if w.record {
      var tag := w.entries[i].tag;
      HoldsParts(Spell(w), KeyAt(w, i), [KeyToken(tag)], [Colon]);
      HoldsOne(Spell(w), KeyAt(w, i), KeyToken(tag));
      HoldsOne(Spell(w), KeyAt(w, i) + 1, Colon);
      TokenAt(tokens, start, end, w, KeyAt(w, i));
      TokenAt(tokens, start, end, w, KeyAt(w, i) + 1);
    }
  }

  lemma TokenAt(tokens: seq<Token>, start: nat, end: nat, w: Json, k: nat)
    requires Stretch(tokens, start, end, w) && k < |Spell(w)|
    ensures start + k < end && Peek(tokens, start + k, end) == Spell(w)[k]
  {
    hide Spell, Partial;
    assert tokens[start..end][k] == tokens[start + k];
  }

  /** The j-th token after the last part, or the end. */
  lemma EndingAt(tokens: seq<Token>, start: nat, end: nat, w: Json, j: nat)
    requires Stretch(tokens, start, end, w) && w.Container?
    ensures var ending := Ending(w.record, |w.entries|, w.phase);
      && start + At(w, |w.entries|) + |ending| == end
      && Peek(tokens, start + At(w, |w.entries|) + j, end) == if j < |ending| then ending[j] else End
  {
    hide Spell, Partial, At, Ending;
    ContainerLayout(w);
    var ending, at := Ending(w.record, |w.entries|, w.phase), At(w, |w.entries|);
    if j < |ending| {
      assert Spell(w)[at..][j] == Spell(w)[at + j];
      TokenAt(tokens, start, end, w, at + j);
    }
  }

  /** What follows i parts: nothing, the closing bracket, or a comma and then perhaps a name or part. */
  lemma AfterParts(tokens: seq<Token>, start: nat, end: nat, w: Json, i: nat)
    requires Stretch(tokens, start, end, w) && w.Container? && i <= |w.entries|
    ensures i == 0 ==> At(w, i) == 1
    ensures 0 < i < |w.entries| ==> Peek(tokens, start + At(w, i), end) == Comma && KeyAt(w, i) == At(w, i) + 1
    ensures i == |w.entries| && w.phase == Closed ==> Peek(tokens, start + At(w, i), end) == Closing(w.record)
    ensures i == |w.entries| && (w.phase == First || w.phase == After) ==> Peek(tokens, start + At(w, i), end) == End
    ensures i == |w.entries| && w.phase == Next ==>
      Peek(tokens, start + At(w, i), end) == Comma && Peek(tokens, start + At(w, i) + 1, end) == End
    ensures i == |w.entries| && Pending(w.phase) && i > 0 ==> Peek(tokens, start + At(w, i), end) == Comma
    ensures i == |w.entries| && Pending(w.phase) ==>
      var head := start + At(w, i) + (if i > 0 then 1 else 0);
      && w.phase.key.Key? && Peek(tokens, head, end) == KeyToken(w.phase.key)
      && Peek(tokens, head + 1, end) == (if w.phase.AwaitValue? then Colon else End)
      && Peek(tokens, head + 2, end) == End
  {
    hide Spell, Partial, At;
    PhaseIs(w);
    ContainerLayout(w);
    if i < |w.entries| {
      BetweenParts(tokens, start, end, w, i);
    } else {
      EndingAt(tokens, start, end, w, 0);
      EndingAt(tokens, start, end, w, 1);
      EndingAt(tokens, start, end, w, 2);
      EndingAt(tokens, start, end, w, 3);
    }
  }

  // ---- spans and fields ----

  ghost function TreeAt(tokens: seq<Token>, s: Span): Json {
    if HasTree(tokens, s.start, s.end) then TreeOf(tokens, s.start, s.end) else Scalar(NullToken)
  }

  ghost function TreesOf(tokens: seq<Token>, spans: seq<Span>): set<Json> {
    set s | s in spans :: TreeAt(tokens, s)
  }

  ghost predicate GoodSpans(tokens: seq<Token>, spans: seq<Span>) {
    forall s :: s in spans ==> HasTree(tokens, s.start, s.end)
  }

  lemma PushSpan(tokens: seq<Token>, spans: seq<Span>, s: Span, v: Json)
    requires GoodSpans(tokens, spans) && Stretch(tokens, s.start, s.end, v)
    ensures GoodSpans(tokens, spans + [s]) && TreesOf(tokens, spans + [s]) == TreesOf(tokens, spans) + {v}
  {
    hide Stretch;
    TreeIs(tokens, s.start, s.end, v);
    assert TreeAt(tokens, s) == v;
    forall t | t in TreesOf(tokens, spans) + {v} ensures t in TreesOf(tokens, spans + [s]) {
      if t == v { assert s in spans + [s]; }
      else { var r :| r in spans && TreeAt(tokens, r) == t; assert r in spans + [s]; }
    }
  }

  lemma PopSpan(tokens: seq<Token>, spans: seq<Span>)
    requires GoodSpans(tokens, spans) && spans != []
    ensures var n := |spans| - 1;
      && GoodSpans(tokens, spans[..n]) && HasTree(tokens, spans[n].start, spans[n].end)
      && TreesOf(tokens, spans) == TreesOf(tokens, spans[..n]) + {TreeOf(tokens, spans[n].start, spans[n].end)}
  {
    var n := |spans| - 1;
    assert spans[..n] + [spans[n]] == spans && spans[n] in spans;
    assert forall s :: s in spans[..n] ==> s in spans;
    PushSpan(tokens, spans[..n], spans[n], TreeOf(tokens, spans[n].start, spans[n].end));
  }

  ghost predicate GoodField(tokens: seq<Token>, kind: DocumentKind, path: Path, trees: set<Json>, f: NamedGroup) {
    && Admits(kind, path, Field(f.name)) && GoodSpans(tokens, f.group.spans)
    && TreesOf(tokens, f.group.spans) == Parts(trees, Field(f.name))
    && (f.group.duplicate <==> SomeRepeats(trees, Field(f.name)))
  }

  ghost predicate Found(trees: set<Json>, segment: Segment) {
    Parts(trees, segment) != {} || SomeRepeats(trees, segment)
  }

  ghost predicate HasField(fields: seq<NamedGroup>, name: string) {
    exists i :: 0 <= i < |fields| && fields[i].name == name
  }

  /** The fields are the groups of the members of these values, one for each name that can be located. */
  ghost predicate FieldsShow(tokens: seq<Token>, kind: DocumentKind, path: Path, trees: set<Json>,
                             fields: seq<NamedGroup>) {
    && (forall i, j :: 0 <= i < j < |fields| ==> fields[i].name != fields[j].name)
    && (forall i :: 0 <= i < |fields| ==> GoodField(tokens, kind, path, trees, fields[i]))
    && forall name :: Admits(kind, path, Field(name)) && Found(trees, Field(name)) ==> HasField(fields, name)
  }

  ghost function TotalSpans(fields: seq<NamedGroup>): nat {
    if fields == [] then 0 else |fields[0].group.spans| + TotalSpans(fields[1..])
  }

  lemma {:induction false} TotalUpdate(fields: seq<NamedGroup>, k: nat, f: NamedGroup)
    requires k < |fields|
    ensures TotalSpans(fields[k := f]) == TotalSpans(fields) - |fields[k].group.spans| + |f.group.spans|
    decreases |fields|
  {
    var after := fields[k := f];
    if k == 0 { assert after[1..] == fields[1..]; }
    else { TotalUpdate(fields[1..], k - 1, f); assert after[1..] == fields[1..][k - 1 := f]; }
  }

  lemma {:induction false} TotalAppend(fields: seq<NamedGroup>, f: NamedGroup)
    ensures TotalSpans(fields + [f]) == TotalSpans(fields) + |f.group.spans|
    decreases |fields|
  {
    var after := fields + [f];
    if fields == [] { assert after[1..] == []; }
    else { TotalAppend(fields[1..], f); assert after[1..] == fields[1..] + [f]; }
  }

  /** Two sets of values have the same locatable members. */
  ghost predicate SameFields(kind: DocumentKind, path: Path, a: set<Json>, b: set<Json>) {
    forall name :: Admits(kind, path, Field(name)) ==>
      Parts(b, Field(name)) == Parts(a, Field(name)) && (SomeRepeats(b, Field(name)) <==> SomeRepeats(a, Field(name)))
  }

  lemma FieldsKeep(tokens: seq<Token>, kind: DocumentKind, path: Path, a: set<Json>, b: set<Json>,
                   fields: seq<NamedGroup>)
    requires FieldsShow(tokens, kind, path, a, fields) && SameFields(kind, path, a, b)
    ensures FieldsShow(tokens, kind, path, b, fields)
  {
    hide Admits, Parts, SomeRepeats, TreesOf, GoodSpans;
    forall i | 0 <= i < |fields| ensures GoodField(tokens, kind, path, b, fields[i]) {
      assert GoodField(tokens, kind, path, a, fields[i]);
    }
  }

  lemma FieldAdded(tokens: seq<Token>, kind: DocumentKind, path: Path, trees: set<Json>, fields: seq<NamedGroup>,
                   name: string)
    requires FieldsShow(tokens, kind, path, trees, fields) && Admits(kind, path, Field(name)) && !HasField(fields, name)
    ensures FieldsShow(tokens, kind, path, trees, fields + [NamedGroup(name, Group([], false))])
  {
    hide Admits, Parts, SomeRepeats;
    var f := NamedGroup(name, Group([], false));
    assert !Found(trees, Field(name));
    assert TreesOf(tokens, []) == {};
    assert GoodField(tokens, kind, path, trees, f);
    hide GoodField, Found;
    forall n | Admits(kind, path, Field(n)) && Found(trees, Field(n)) ensures HasField(fields + [f], n) {
      var i :| 0 <= i < |fields| && fields[i].name == n;
      assert (fields + [f])[i].name == n;
    }
  }

  /** What one more name or part changes. */
  ghost predicate Differ(a: set<Json>, b: set<Json>, segment: Segment, part: set<Json>, repeated: bool) {
    forall s: Segment ::
      && Parts(b, s) == Parts(a, s) + (if s == segment then part else {})
      && (SomeRepeats(b, s) <==> SomeRepeats(a, s) || (repeated && s == segment))
  }

  lemma DifferAt(a: set<Json>, b: set<Json>, segment: Segment, part: set<Json>, repeated: bool, s: Segment)
    requires Differ(a, b, segment, part, repeated)
    ensures Parts(b, s) == Parts(a, s) + (if s == segment then part else {})
    ensures SomeRepeats(b, s) <==> SomeRepeats(a, s) || (repeated && s == segment)
    ensures s != segment ==> Parts(b, s) == Parts(a, s)
  {
    hide Parts, SomeRepeats;
  }

  lemma FieldChanged(tokens: seq<Token>, kind: DocumentKind, path: Path, a: set<Json>, b: set<Json>,
                     fields: seq<NamedGroup>, k: nat, f: NamedGroup,
                     part: set<Json>, repeated: bool)
    requires FieldsShow(tokens, kind, path, a, fields) && k < |fields| && f.name == fields[k].name
    requires Differ(a, b, Field(f.name), part, repeated)
    requires GoodSpans(tokens, f.group.spans)
    requires TreesOf(tokens, f.group.spans) == TreesOf(tokens, fields[k].group.spans) + part
    requires f.group.duplicate <==> fields[k].group.duplicate || repeated
    ensures FieldsShow(tokens, kind, path, b, fields[k := f])
  {
    hide Admits, Parts, SomeRepeats, TreesOf, GoodSpans, Differ;
    var after := fields[k := f];
    forall i | 0 <= i < |fields| ensures GoodField(tokens, kind, path, b, after[i]) {
      assert GoodField(tokens, kind, path, a, fields[i]);
      DifferAt(a, b, Field(f.name), part, repeated, Field(fields[i].name));
    }
    forall name | Admits(kind, path, Field(name)) && Found(b, Field(name)) ensures HasField(after, name) {
      DifferAt(a, b, Field(f.name), part, repeated, Field(name));
      if name == f.name { assert after[k].name == name; }
      else {
        assert Found(a, Field(name)) && HasField(fields, name);
        var i :| 0 <= i < |fields| && fields[i].name == name;
        assert after[i].name == name;
      }
    }
  }

  lemma DifferUnlocated(kind: DocumentKind, path: Path, a: set<Json>, b: set<Json>, segment: Segment, part: set<Json>,
                        repeated: bool)
    requires Differ(a, b, segment, part, repeated) && !Admits(kind, path, segment)
    ensures SameFields(kind, path, a, b)
  {
    hide Admits, Parts, SomeRepeats, Differ;
    forall name | Admits(kind, path, Field(name))
      ensures Parts(b, Field(name)) == Parts(a, Field(name))
      ensures SomeRepeats(b, Field(name)) <==> SomeRepeats(a, Field(name))
    {
      DifferAt(a, b, segment, part, repeated, Field(name));
    }
  }

  // ---- a record, member by member ----

  /** The record as far as its first n members. */
  ghost function Prefix(w: Json, n: nat): Json
    requires w.Container? && n <= |w.entries|
  {
    Container(true, w.entries[..n], Closed)
  }

  /** The same after one more name. */
  ghost function WithKey(w: Json, n: nat, tag: Tag): Json
    requires w.Container? && n <= |w.entries|
  {
    Container(true, w.entries[..n], AwaitColon(tag))
  }

  /** What this value adds to a set of values. */
  lemma JoinOne(kind: DocumentKind, path: Path, trees: set<Json>, u: Json, s: Segment)
    ensures Parts(trees + {u}, s) == Parts(trees, s) + Parts({u}, s)
    ensures SomeRepeats(trees + {u}, s) <==> SomeRepeats(trees, s) || RepeatsSegment(u, s)
    ensures FoldsRecords(kind, path, trees + {u}) <==> FoldsRecords(kind, path, trees) || FoldsRecord(kind, path, u)
  {
    hide RepeatsSegment, FoldsOne;
  }

  ghost predicate FoldsRecord(kind: DocumentKind, path: Path, u: Json) {
    u.Container? && u.record && FoldsOne(kind, path, u)
  }

  ghost predicate FoldsRecords(kind: DocumentKind, path: Path, trees: set<Json>) {
    exists w :: w in trees && FoldsRecord(kind, path, w)
  }

  lemma PartsOfOne(u: Json, s: Segment, part: Json)
    ensures part in Parts({u}, s) <==> HasPart(u, s, part)
  {
  }

  lemma KeyStep(kind: DocumentKind, path: Path, w: Json, n: nat, tag: Tag, s: Segment)
    requires w.Container? && n <= |w.entries| && tag.Key?
    ensures Parts({WithKey(w, n, tag)}, s) == Parts({Prefix(w, n)}, s)
    ensures RepeatsSegment(WithKey(w, n, tag), s) <==>
      RepeatsSegment(Prefix(w, n), s) || (tag.text in Names(w.entries[..n]) && s == Field(tag.text))
  {
    hide Names, RepeatedFirst;
    forall part ensures part in Parts({WithKey(w, n, tag)}, s) <==> part in Parts({Prefix(w, n)}, s) {
      PartsOfOne(WithKey(w, n, tag), s, part);
      PartsOfOne(Prefix(w, n), s, part);
    }
  }

  lemma ValueStep(w: Json, n: nat, s: Segment)
    requires w.Container? && n < |w.entries| && w.entries[n].tag.Key?
    ensures Parts({Prefix(w, n + 1)}, s) ==
      Parts({WithKey(w, n, w.entries[n].tag)}, s) + (if s == SegmentAt(w, n) then {w.entries[n].value} else {})
    ensures RepeatsSegment(Prefix(w, n + 1), s) <==> RepeatsSegment(WithKey(w, n, w.entries[n].tag), s)
  {
    var a, b := WithKey(w, n, w.entries[n].tag), Prefix(w, n + 1);
    assert b.entries[..n] == a.entries && b.entries == a.entries + [w.entries[n]];
    forall part
      ensures part in Parts({b}, s) <==> part in Parts({a}, s) || (s == SegmentAt(w, n) && part == w.entries[n].value) {
      PartsOfOne(a, s, part);
      PartsOfOne(b, s, part);
      PushedPart(a, b, s, part);
    }
    if s.Field? { RepeatedInit(b.entries, s.name); }
  }

  lemma PushedPart(a: Json, b: Json, s: Segment, part: Json)
    requires a.Container? && b.Container? && |b.entries| == |a.entries| + 1 && b.entries[..|a.entries|] == a.entries
    ensures HasPart(b, s, part) <==>
      HasPart(a, s, part) || (s == SegmentAt(b, |a.entries|) && part == b.entries[|a.entries|].value)
  {
    var n := |a.entries|;
    assert forall i :: 0 <= i < n ==> b.entries[i] == a.entries[i];
    if i :| 0 <= i < n && SegmentAt(a, i) == s && a.entries[i].value == part { assert SegmentAt(b, i) == s; }
    if i :| 0 <= i < |b.entries| && SegmentAt(b, i) == s && b.entries[i].value == part {
      if i < n { assert SegmentAt(a, i) == s; }
    }
  }

  lemma KeyDiffers(kind: DocumentKind, path: Path, trees: set<Json>, w: Json, n: nat, tag: Tag)
    requires w.Container? && n <= |w.entries| && tag.Key?
    ensures Differ(trees + {Prefix(w, n)}, trees + {WithKey(w, n, tag)}, Field(tag.text), {},
      tag.text in Names(w.entries[..n]))
  {
    hide Names, Parts, SomeRepeats, RepeatsSegment, FoldsRecords, FoldsRecord;
    var a, b := trees + {Prefix(w, n)}, trees + {WithKey(w, n, tag)};
    forall s: Segment
      ensures Parts(b, s) == Parts(a, s) + (if s == Field(tag.text) then {} else {})
      ensures SomeRepeats(b, s) <==> SomeRepeats(a, s) || (tag.text in Names(w.entries[..n]) && s == Field(tag.text))
    {
      KeyStep(kind, path, w, n, tag, s);
      JoinOne(kind, path, trees, Prefix(w, n), s);
      JoinOne(kind, path, trees, WithKey(w, n, tag), s);
    }
  }

  lemma ValueDiffers(kind: DocumentKind, path: Path, trees: set<Json>, w: Json, n: nat)
    requires w.Container? && n < |w.entries| && w.entries[n].tag.Key?
    ensures Differ(trees + {WithKey(w, n, w.entries[n].tag)}, trees + {Prefix(w, n + 1)}, SegmentAt(w, n),
      {w.entries[n].value}, false)
  {
    hide Names, Parts, SomeRepeats, RepeatsSegment, FoldsRecords, FoldsRecord;
    var a, b, part := trees + {WithKey(w, n, w.entries[n].tag)}, trees + {Prefix(w, n + 1)}, {w.entries[n].value};
    forall s: Segment
      ensures Parts(b, s) == Parts(a, s) + (if s == SegmentAt(w, n) then part else {})
      ensures SomeRepeats(b, s) <==> SomeRepeats(a, s) || (false && s == SegmentAt(w, n))
    {
      ValueStep(w, n, s);
      JoinOne(kind, path, trees, Prefix(w, n + 1), s);
      JoinOne(kind, path, trees, WithKey(w, n, w.entries[n].tag), s);
    }
  }

  /** The first names and parts that cannot be located are folded into the record's own location. */
  lemma KeyFolds(kind: DocumentKind, path: Path, w: Json, n: nat, tag: Tag)
    requires w.Container? && n <= |w.entries| && tag.Key?
    ensures FoldsRecord(kind, path, WithKey(w, n, tag)) <==>
      FoldsRecord(kind, path, Prefix(w, n))
        || (tag.text in Names(w.entries[..n]) && !Admits(kind, path, Field(tag.text)))
  {
    hide Names, Admits, RepeatsSegment, Parts;
    var a, b := Prefix(w, n), WithKey(w, n, tag);
    forall s ensures FoldsName(kind, path, b, s) <==>
      FoldsName(kind, path, a, s)
        || (tag.text in Names(w.entries[..n]) && s == Field(tag.text) && !Admits(kind, path, s))
    {
      KeyStep(kind, path, w, n, tag, s);
    }
    forall i | 0 <= i < n ensures FoldsPart(kind, path, a, i) <==> FoldsPart(kind, path, b, i) { }
    if tag.text in Names(w.entries[..n]) && !Admits(kind, path, Field(tag.text)) {
      assert FoldsName(kind, path, b, Field(tag.text));
    }
  }

  lemma ValueFolds(kind: DocumentKind, path: Path, w: Json, n: nat)
    requires w.Container? && n < |w.entries| && w.entries[n].tag.Key?
    ensures FoldsRecord(kind, path, Prefix(w, n + 1)) <==>
      FoldsRecord(kind, path, WithKey(w, n, w.entries[n].tag))
        || (!Admits(kind, path, SegmentAt(w, n)) && Duplicates(w.entries[n].value) != [])
  {
    hide Names, Admits, RepeatsSegment, Parts, Duplicates;
    var a, b := WithKey(w, n, w.entries[n].tag), Prefix(w, n + 1);
    forall s ensures FoldsName(kind, path, b, s) <==> FoldsName(kind, path, a, s) { ValueStep(w, n, s); }
    assert forall i :: 0 <= i < n ==> b.entries[i] == a.entries[i];
    forall i | 0 <= i < n ensures FoldsPart(kind, path, a, i) <==> FoldsPart(kind, path, b, i) {
      assert SegmentAt(a, i) == SegmentAt(b, i);
    }
    assert SegmentAt(b, n) == SegmentAt(w, n);
    assert FoldsPart(kind, path, b, n) <==>
      !Admits(kind, path, SegmentAt(w, n)) && Duplicates(w.entries[n].value) != [];
    if i :| 0 <= i < n && FoldsPart(kind, path, a, i) { assert FoldsPart(kind, path, b, i); }
    if i :| 0 <= i < n + 1 && FoldsPart(kind, path, b, i) { if i < n { assert FoldsPart(kind, path, a, i); } }
  }

  /** How far the record has been read: all members, and the pending name if there is one. */
  ghost function ReadUp(w: Json): Json
    requires w.Container?
  {
    if Pending(w.phase) then WithKey(w, |w.entries|, w.phase.key) else Prefix(w, |w.entries|)
  }

  lemma RecordDone(kind: DocumentKind, path: Path, trees: set<Json>, w: Json)
    requires w.Container? && w.record
    ensures SameFields(kind, path, trees + {ReadUp(w)}, trees + {w})
    ensures FoldsRecords(kind, path, trees + {ReadUp(w)}) <==> FoldsRecords(kind, path, trees + {w})
  {
    hide Names, Admits, Parts, SomeRepeats, FoldsRecords, RepeatedFirst;
    var u := ReadUp(w);
    assert w.entries[..|w.entries|] == w.entries;
    forall s: Segment ensures Parts({u}, s) == Parts({w}, s) && (RepeatsSegment(u, s) <==> RepeatsSegment(w, s)) {
      forall part ensures part in Parts({u}, s) <==> part in Parts({w}, s) {
        PartsOfOne(u, s, part);
        PartsOfOne(w, s, part);
      }
    }
    forall s: Segment
      ensures Parts(trees + {u}, s) == Parts(trees + {w}, s)
      ensures (SomeRepeats(trees + {u}, s) <==> SomeRepeats(trees + {w}, s)) {
      JoinOne(kind, path, trees, u, s);
      JoinOne(kind, path, trees, w, s);
    }
    SameFolds(kind, path, u, w);
    JoinOne(kind, path, trees, u, Index(0));
    JoinOne(kind, path, trees, w, Index(0));
  }

  lemma SameFolds(kind: DocumentKind, path: Path, u: Json, w: Json)
    requires u.Container? && w.Container? && u.record && w.record && u.entries == w.entries
    requires forall s :: RepeatsSegment(u, s) <==> RepeatsSegment(w, s)
    ensures FoldsRecord(kind, path, u) <==> FoldsRecord(kind, path, w)
  {
    hide Admits, RepeatsSegment, Duplicates;
    forall s ensures FoldsName(kind, path, u, s) <==> FoldsName(kind, path, w, s) { }
    forall i | 0 <= i < |u.entries| ensures FoldsPart(kind, path, u, i) <==> FoldsPart(kind, path, w, i) { }
  }

  lemma RecordBegun(kind: DocumentKind, path: Path, trees: set<Json>, w: Json)
    requires w.Container?
    ensures SameFields(kind, path, trees, trees + {Prefix(w, 0)})
    ensures FoldsRecords(kind, path, trees + {Prefix(w, 0)}) <==> FoldsRecords(kind, path, trees)
  {
    hide Admits, Parts, SomeRepeats, FoldsRecords;
    var u := Prefix(w, 0);
    assert u.entries == [];
    forall s: Segment
      ensures Parts(trees + {u}, s) == Parts(trees, s) && (SomeRepeats(trees + {u}, s) <==> SomeRepeats(trees, s)) {
      forall part ensures part !in Parts({u}, s) { PartsOfOne(u, s, part); }
      JoinOne(kind, path, trees, u, s);
    }
    JoinOne(kind, path, trees, u, Index(0));
  }

  // ---- reading along a record ----

  ghost function HeadAt(w: Json, n: nat): nat
    requires w.Container? && n <= |w.entries|
  {
    At(w, n) + if n > 0 then 1 else 0
  }

  ghost function TagAt(w: Json, n: nat): Tag
    requires w.Container? && n <= |w.entries|
  {
    if n < |w.entries| then w.entries[n].tag else if Pending(w.phase) then w.phase.key else Position
  }

  /** Whether an n-th name has been read. */
  ghost predicate HasName(w: Json, n: nat)
    requires w.Container? && n <= |w.entries|
  {
    n < |w.entries| || Pending(w.phase)
  }

  lemma NameHere(tokens: seq<Token>, start: nat, end: nat, w: Json, n: nat)
    requires Stretch(tokens, start, end, w) && w.Container? && w.record && n <= |w.entries| && HasName(w, n)
    ensures var head, tag := start + HeadAt(w, n), TagAt(w, n);
      && tag.Key? && Peek(tokens, head, end) == StringToken(tag.text, tag.bytes)
      && (n < |w.entries| ==> Peek(tokens, head + 1, end) == Colon && Peek(tokens, head + 2, end) != End)
      && (n < |w.entries| ==>
        ValueHere(tokens, head + 2, end, w.entries[n].value)
          && start + At(w, n + 1) == head + 2 + |Spell(w.entries[n].value)|)
      && (n == |w.entries| ==>
        Peek(tokens, head + 1, end) == End
          || (Peek(tokens, head + 1, end) == Colon && Peek(tokens, head + 2, end) == End))
  {
    hide Spell, Partial, At, ValueHere, Stretch;
    AfterParts(tokens, start, end, w, n);
    if n < |w.entries| {
      BetweenParts(tokens, start, end, w, n);
      PartHere(tokens, start, end, w, n);
      var doc := FirstRead(tokens, start + ValueAt(w, n), end, w.entries[n].value);
      InBounds(tokens, start + ValueAt(w, n), end, w.entries[n].value);
      ValueStarts(tokens, start + ValueAt(w, n), end);
    }
  }

  lemma ValueStarts(tokens: seq<Token>, at: nat, end: nat)
    requires at < end <= |tokens| && IsValue(tokens[at])
    ensures Peek(tokens, at, end) == tokens[at] != End
  {
  }

  /**
   * What is read after n parts: perhaps a comma, then the next name or part, or else the closing bracket or the
   * end.
   */
  lemma SeparatorHere(tokens: seq<Token>, start: nat, end: nat, w: Json, n: nat)
    requires Stretch(tokens, start, end, w) && w.Container? && n <= |w.entries|
    ensures var at := start + At(w, n);
      && (n == 0 ==> at == start + 1)
      && (n > 0 && Peek(tokens, at, end) == Comma ==>
        start + HeadAt(w, n) == at + 1 && (HasName(w, n) || Peek(tokens, at + 1, end) == End))
      && (n > 0 && Peek(tokens, at, end) != Comma ==>
        !HasName(w, n) && Peek(tokens, at, end) in {Closing(w.record), End})
      && (n == 0 && !HasName(w, n) ==> Peek(tokens, at, end) in {Closing(w.record), End})
  {
    hide Spell, Partial, At, Stretch;
    AfterParts(tokens, start, end, w, n);
    PhaseOf(tokens, start, end, w);
  }

  lemma PhaseOf(tokens: seq<Token>, start: nat, end: nat, w: Json)
    requires Stretch(tokens, start, end, w) && w.Container?
    ensures w.phase == Closed || PhaseFits(w.record, |w.entries|, w.phase)
  {
    PhaseIs(w);
  }

  /** The reader stands at the n-th name, or at what ends the record. */
  ghost predicate AtName(tokens: seq<Token>, start: nat, end: nat, w: Json, n: nat, at: nat)
    requires end <= |tokens|
  {
    && w.Container? && n <= |w.entries|
    && (if HasName(w, n) then at == start + HeadAt(w, n) else Peek(tokens, at, end) in {ObjectEnd, End})
  }

  method FindField(fields: seq<NamedGroup>, name: string) returns (k: Option<nat>)
    ensures k.Some? ==> k.value < |fields| && fields[k.value].name == name
    ensures k.None? ==> !HasField(fields, name)
  {
    var i := 0;
    while i < |fields|
      invariant 0 <= i <= |fields| && forall j :: 0 <= j < i ==> fields[j].name != name
    {
      if fields[i].name == name { return Some(i); }
      i := i + 1;
    }
    return None;
  }

  lemma SpanOf(tokens: seq<Token>, at: nat, end: nat, v: Json)
    requires ValueHere(tokens, at, end, v)
    ensures Stretch(tokens, at, at + |Spell(v)|, v)
  {
  }

  lemma EndIsIn(tokens: seq<Token>, start: nat, end: nat, w: Json)
    requires Stretch(tokens, start, end, w)
    ensures start <= end <= |tokens|
  {
  }

  lemma HeadZero(w: Json)
    requires w.Container?
    ensures HeadAt(w, 0) == 1 && At(w, 0) == 1 && Names(w.entries[..0]) == {}
  {
    assert w.entries[..0] == [];
  }

  lemma PrefixNothing(kind: DocumentKind, path: Path, w: Json)
    requires w.Container?
    ensures !FoldsRecord(kind, path, Prefix(w, 0))
  {
    hide Admits, Duplicates;
    var u := Prefix(w, 0);
    assert u.entries == [];
    forall s ensures !FoldsName(kind, path, u, s) { }
  }

  lemma PendingIsLast(w: Json)
    requires w.Container? && Pending(w.phase)
    ensures WithKey(w, |w.entries|, TagAt(w, |w.entries|)) == ReadUp(w)
  {
  }

  lemma NamesMore(w: Json, n: nat)
    requires w.Container? && n < |w.entries| && w.entries[n].tag.Key?
    ensures Names(w.entries[..n + 1]) == Names(w.entries[..n]) + {w.entries[n].tag.text}
  {
    assert w.entries[..n + 1] == w.entries[..n] + [w.entries[n]];
    PushNames(w.entries[..n], w.entries[n]);
  }

  /** At the end of a record every member has been read. */
  lemma NoNameLeft(tokens: seq<Token>, start: nat, end: nat, w: Json, n: nat, at: nat)
    requires Stretch(tokens, start, end, w) && w.Container? && w.record && AtName(tokens, start, end, w, n, at)
    requires Peek(tokens, at, end) in {ObjectEnd, End}
    ensures n == |w.entries| && Prefix(w, n) == ReadUp(w)
  {
    if HasName(w, n) { NameHere(tokens, start, end, w, n); }
  }

  /** The record is read up. */
  lemma Finish(kind: DocumentKind, path: Path, w: Json, trees: set<Json>, tokens: seq<Token>, fields: seq<NamedGroup>)
    requires w.Container? && w.record && FieldsShow(tokens, kind, path, trees + {ReadUp(w)}, fields)
    ensures FieldsShow(tokens, kind, path, trees + {w}, fields)
    ensures FoldsRecord(kind, path, ReadUp(w)) <==> FoldsRecord(kind, path, w)
  {
    hide FieldsShow, SameFields, FoldsRecord, Parts;
    RecordDone(kind, path, trees, w);
    FieldsKeep(tokens, kind, path, trees + {ReadUp(w)}, trees + {w}, fields);
    RecordDone(kind, path, {}, w);
    assert {} + {w} == {w} && {} + {ReadUp(w)} == {ReadUp(w)};
    OneFolds(kind, path, w);
    OneFolds(kind, path, ReadUp(w));
  }

  lemma OneFolds(kind: DocumentKind, path: Path, u: Json)
    ensures FoldsRecords(kind, path, {u}) <==> FoldsRecord(kind, path, u)
  {
  }

  // ---- the values of a group that are not objects ----

  ghost predicate AllPartial(trees: set<Json>) {
    forall w :: w in trees ==> Partial(w)
  }

  /** The arrays with more than i items. */
  ghost function Active(trees: set<Json>, i: nat): set<Json> {
    set w | w in trees && w.Container? && !w.record && i < |w.entries|
  }

  ghost function ItemsAt(arrays: set<Json>, i: nat): set<Json> {
    set w | w in arrays && w.Container? && i < |w.entries| :: w.entries[i].value
  }

  /** The parts at an index are the items of the arrays that are long enough. */
  lemma ItemsAreParts(trees: set<Json>, i: nat)
    requires AllPartial(trees)
    ensures Parts(trees, Index(i)) == ItemsAt(Active(trees, i), i)
  {
    forall part | part in Parts(trees, Index(i)) ensures part in ItemsAt(Active(trees, i), i) {
      var w, k := PartOf(trees, Index(i), part);
      PartPartial(w, k);
      hide Partial;
      assert !w.record && k == i;
    }
    forall part | part in ItemsAt(Active(trees, i), i) ensures part in Parts(trees, Index(i)) {
      var w :| w in Active(trees, i) && w.Container? && i < |w.entries| && w.entries[i].value == part;
      PartPartial(w, i);
      hide Partial;
      assert SegmentAt(w, i) == Index(i);
    }
  }

  /** A value that is not an object has no named parts. */
  lemma NoNamedParts(kind: DocumentKind, path: Path, trees: set<Json>, w: Json)
    requires Partial(w) && (w.Scalar? || !w.record)
    ensures SameFields(kind, path, trees, trees + {w}) && !FoldsRecord(kind, path, w)
    ensures forall s :: !RepeatsSegment(w, s)
  {
    forall s: Segment ensures !RepeatsSegment(w, s) { if w.Container? && s.Field? { NoRepeats(w, s.name); } }
    hide Partial, RepeatsSegment, Admits, FoldsRecords, SomeRepeats;
    forall name: string
      ensures Parts(trees + {w}, Field(name)) == Parts(trees, Field(name))
      ensures SomeRepeats(trees + {w}, Field(name)) <==> SomeRepeats(trees, Field(name))
    {
      JoinOne(kind, path, trees, w, Field(name));
      forall part ensures part !in Parts({w}, Field(name)) {
        PartsOfOne(w, Field(name), part);
        if HasPart(w, Field(name), part) {
          var i :| 0 <= i < |w.entries| && SegmentAt(w, i) == Field(name);
          PartPartial(w, i);
        }
      }
    }
  }

  lemma NoRepeats(w: Json, name: string)
    requires Partial(w) && w.Container? && !w.record
    ensures !Repeats(w, name)
  {
    PhaseIs(w);
    hide Partial;
    forall i | 0 <= i < |w.entries| ensures !RepeatedAt(w.entries, i, name) { PartPartial(w, i); }
  }

  ghost predicate GoodCursor(tokens: seq<Token>, c: ArrayCursor, i: nat) {
    && HasTree(tokens, c.start, c.end) && c.end <= |tokens|
    && var w := TreeOf(tokens, c.start, c.end);
      w.Container? && !w.record && i < |w.entries| && c.at == c.start + KeyAt(w, i)
  }

  ghost function CursorTrees(tokens: seq<Token>, arrays: seq<ArrayCursor>): set<Json> {
    set c | c in arrays :: TreeAt(tokens, Span(c.start, c.end))
  }

  ghost predicate ArraysShow(tokens: seq<Token>, trees: set<Json>, arrays: seq<ArrayCursor>, i: nat) {
    GoodCursors(tokens, arrays, i) && CursorTrees(tokens, arrays) == Active(trees, i)
  }

  ghost predicate GoodCursors(tokens: seq<Token>, arrays: seq<ArrayCursor>, i: nat) {
    forall c :: c in arrays ==> GoodCursor(tokens, c, i)
  }

  lemma PushCursor(tokens: seq<Token>, arrays: seq<ArrayCursor>, c: ArrayCursor)
    ensures CursorTrees(tokens, arrays + [c]) == CursorTrees(tokens, arrays) + {TreeAt(tokens, Span(c.start, c.end))}
  {
    hide TreeAt;
    var all := arrays + [c];
    assert c in all;
    forall x | x in arrays ensures x in all { }
    forall t | t in CursorTrees(tokens, arrays) + {TreeAt(tokens, Span(c.start, c.end))}
      ensures t in CursorTrees(tokens, all) {
      if t in CursorTrees(tokens, arrays) {
        var x :| x in arrays && TreeAt(tokens, Span(x.start, x.end)) == t;
        assert x in all;
      }
    }
  }

  lemma ActiveJoin(trees: set<Json>, w: Json, i: nat)
    ensures Active(trees + {w}, i) ==
      Active(trees, i) + (if w.Container? && !w.record && i < |w.entries| then {w} else {})
  {
  }

  /** What the items of the first n rounds fold into the location itself. */
  ghost predicate FoldsItem(kind: DocumentKind, path: Path, trees: set<Json>, i: nat) {
    !Admits(kind, path, Index(i)) && exists part :: part in ItemsAt(Active(trees, i), i) && Duplicates(part) != []
  }

  ghost predicate FoldsItems(kind: DocumentKind, path: Path, trees: set<Json>, n: nat) {
    exists i :: 0 <= i < n && FoldsItem(kind, path, trees, i)
  }

  /** A group folds what its records fold and what its arrays' items fold. */
  lemma FoldsSplit(kind: DocumentKind, path: Path, trees: set<Json>, n: nat)
    requires AllPartial(trees) && Active(trees, n) == {}
    ensures Folds(kind, path, trees) <==> FoldsRecords(kind, path, trees) || FoldsItems(kind, path, trees, n)
  {
    hide Admits, Duplicates;
    if w :| w in trees && FoldsOne(kind, path, w) {
      if w.record { assert FoldsRecord(kind, path, w); }
      else { ArrayFolds(kind, path, trees, w, n); }
    }
    if w :| w in trees && FoldsRecord(kind, path, w) { assert FoldsOne(kind, path, w); }
    if i :| 0 <= i < n && FoldsItem(kind, path, trees, i) { ItemFolds(kind, path, trees, i); }
  }

  lemma ArrayFolds(kind: DocumentKind, path: Path, trees: set<Json>, w: Json, n: nat)
    requires AllPartial(trees)
    requires Active(trees, n) == {}
    requires w in trees
    requires w.Container?
    requires !w.record
    requires FoldsOne(kind, path, w)
    ensures FoldsItems(kind, path, trees, n)
  {
    hide Admits, Duplicates, Partial, RepeatsSegment;
    assert Partial(w);
    NoNamedParts(kind, path, {}, w);
    var i :| 0 <= i < |w.entries| && FoldsPart(kind, path, w, i);
    PartPartial(w, i);
    assert w in Active(trees, i) && w.entries[i].value in ItemsAt(Active(trees, i), i);
    assert w !in Active(trees, n);
    assert FoldsItem(kind, path, trees, i);
  }

  lemma ItemFolds(kind: DocumentKind, path: Path, trees: set<Json>, i: nat)
    requires AllPartial(trees) && FoldsItem(kind, path, trees, i)
    ensures Folds(kind, path, trees)
  {
    hide Admits, Duplicates, Partial;
    var part :| part in ItemsAt(Active(trees, i), i) && Duplicates(part) != [];
    var w :| w in Active(trees, i) && w.Container? && i < |w.entries| && w.entries[i].value == part;
    assert Partial(w);
    PartPartial(w, i);
    assert FoldsPart(kind, path, w, i);
    assert FoldsOne(kind, path, w);
  }

  // ---- emission, segment by segment ----

  /** Every location a group reports, each once. */
  ghost predicate EmittedFor(kind: DocumentKind, path: Path, trees: set<Json>, flag: bool, more: seq<Path>) {
    Distinct(more) && forall q :: q in more <==> GroupReports(kind, path, trees, flag, q)
  }

  ghost predicate SomePart(kind: DocumentKind, path: Path, trees: set<Json>, segments: seq<Segment>, q: Path) {
    exists j :: 0 <= j < |segments| && PartsReport(kind, path, trees, segments[j], q)
  }

  ghost predicate SegmentsEmitted(kind: DocumentKind, path: Path, trees: set<Json>, segments: seq<Segment>,
                                  more: seq<Path>) {
    Distinct(more) && forall q :: q in more <==> SomePart(kind, path, trees, segments, q)
  }

  lemma PartPath(kind: DocumentKind, path: Path, trees: set<Json>, s: Segment, q: Path)
    requires Location(kind, path) && PartsReport(kind, path, trees, s, q)
    ensures |path| < |q| && q[|path|] == s && q != path
  {
    hide Location, GroupReports, Parts, Admits;
    OwnerBelow(kind, path, [s]);
    ReportsBelowGroup(kind, path + [s], Parts(trees, s), SomeRepeats(trees, s), q);
  }

  lemma JoinDistinct(a: seq<Path>, b: seq<Path>)
    requires Distinct(a) && Distinct(b) && forall x :: x in a ==> x !in b
    ensures Distinct(a + b)
  {
    var c := a + b;
    forall i, j | 0 <= i < j < |c| ensures c[i] != c[j] {
      assert i < |a| ==> c[i] in a;
      assert j >= |a| ==> c[j] in b;
    }
  }

  lemma EmitSegment(kind: DocumentKind, path: Path, trees: set<Json>, segments: seq<Segment>, s: Segment,
                    a: seq<Path>, b: seq<Path>)
    requires Location(kind, path)
    requires Admits(kind, path, s)
    requires s !in segments
    requires SegmentsEmitted(kind, path, trees, segments, a)
    requires EmittedFor(kind, path + [s], Parts(trees, s), SomeRepeats(trees, s), b)
    ensures SegmentsEmitted(kind, path, trees, segments + [s], a + b)
  {
    hide Location, Admits, Parts, SomeRepeats, GroupReports, PartsReport;
    forall q ensures q in b <==> PartsReport(kind, path, trees, s, q) { PartIs(kind, path, trees, s, q); }
    forall q | q in a ensures q !in b {
      var j :| 0 <= j < |segments| && PartsReport(kind, path, trees, segments[j], q);
      PartPath(kind, path, trees, segments[j], q);
      if PartsReport(kind, path, trees, s, q) { PartPath(kind, path, trees, s, q); }
    }
    JoinDistinct(a, b);
    var all := segments + [s];
    forall q
      ensures SomePart(kind, path, trees, all, q) <==>
        SomePart(kind, path, trees, segments, q) || PartsReport(kind, path, trees, s, q) {
      if j :| 0 <= j < |segments| && PartsReport(kind, path, trees, segments[j], q) { assert all[j] == segments[j]; }
      if PartsReport(kind, path, trees, s, q) { assert all[|segments|] == s; }
    }
  }

  lemma PartIs(kind: DocumentKind, path: Path, trees: set<Json>, s: Segment, q: Path)
    requires Admits(kind, path, s)
    ensures PartsReport(kind, path, trees, s, q) <==>
      GroupReports(kind, path + [s], Parts(trees, s), SomeRepeats(trees, s), q)
  {
  }

  /** The segments cover every part that can be located and reports anything. */
  ghost predicate Covers(kind: DocumentKind, path: Path, trees: set<Json>, segments: seq<Segment>) {
    forall s :: Admits(kind, path, s) && Found(trees, s) ==> s in segments
  }

  lemma NothingFound(kind: DocumentKind, path: Path, trees: set<Json>, s: Segment, q: Path)
    requires PartsReport(kind, path, trees, s, q)
    ensures Found(trees, s) && Admits(kind, path, s)
  {
    hide Admits, Duplicates, SomeRepeats;
    if !SomeRepeats(trees, s) {
      var part, p :| part in Parts(trees, s) && p in Duplicates(part) && OwnerOf(kind, path + [s] + p) == q;
    }
  }

  /** The emissions of all parts, and then the location itself, are what the group reports. */
  lemma EmitOwn(kind: DocumentKind, path: Path, trees: set<Json>, flag: bool, duplicate: bool, segments: seq<Segment>,
                more: seq<Path>)
    requires Location(kind, path)
    requires SegmentsEmitted(kind, path, trees, segments, more)
    requires Covers(kind, path, trees, segments)
    requires duplicate <==> flag || Folds(kind, path, trees)
    ensures EmittedFor(kind, path, trees, flag, if duplicate then more + [path] else more)
  {
    hide Location, Admits, GroupReports, PartsReport, Folds, Found;
    forall q
      ensures GroupReports(kind, path, trees, flag, q) <==>
        (q == path && duplicate) || SomePart(kind, path, trees, segments, q) {
      GroupSplits(kind, path, trees, flag, q);
      if s :| PartsReport(kind, path, trees, s, q) {
        NothingFound(kind, path, trees, s, q);
        var j :| 0 <= j < |segments| && segments[j] == s;
      }
    }
    forall q | q in more ensures q != path {
      var j :| 0 <= j < |segments| && PartsReport(kind, path, trees, segments[j], q);
      PartPath(kind, path, trees, segments[j], q);
    }
    JoinDistinct(more, [path]);
  }

  // ---- the spans of a group ----

  lemma WholeSpan(tokens: seq<Token>, span: Span, w: Json)
    requires HasTree(tokens, span.start, span.end) && w == TreeOf(tokens, span.start, span.end)
    ensures Stretch(tokens, span.start, span.end, w)
    ensures ValueHere(tokens, span.start, span.end, w)
    ensures Partial(w)
    ensures span.end <= |tokens|
  {
  }

  lemma NoSpans(tokens: seq<Token>)
    ensures TreesOf(tokens, []) == {} && GoodSpans(tokens, [])
  {
  }

  lemma NothingDone(tokens: seq<Token>, kind: DocumentKind, path: Path)
    ensures FieldsShow(tokens, kind, path, {}, [])
    ensures ArraysShow(tokens, {}, [], 0)
    ensures !FoldsRecords(kind, path, {})
    ensures TotalSpans([]) == 0
  {
    hide Admits;
    forall s: Segment ensures !Found({}, s) { }
  }

  /** The first token tells what a value is. */
  lemma FirstOf(tokens: seq<Token>, span: Span, w: Json)
    requires Stretch(tokens, span.start, span.end, w) && ValueHere(tokens, span.start, span.end, w)
    ensures var first := Peek(tokens, span.start, span.end);
      && IsValue(first) && (first == ObjectStart <==> w.Container? && w.record)
      && (first == ArrayStart <==> w.Container? && !w.record)
  {
    hide Spell, Partial, At;
    var doc := FirstRead(tokens, span.start, span.end, w);
    if w.Container? {
      ContainerLayout(w);
      TokenAt(tokens, span.start, span.end, w, 0);
    }
  }

  /** After the opening bracket of an array stands its first item, unless it has none. */
  lemma FirstItem(tokens: seq<Token>, span: Span, w: Json)
    requires Stretch(tokens, span.start, span.end, w) && w.Container? && !w.record
    ensures var current := Peek(tokens, span.start + 1, span.end);
      (current != ArrayEnd && current != End) <==> w.entries != []
    ensures w.entries != [] ==> KeyAt(w, 0) == 1
  {
    hide Spell, Partial, At, Stretch;
    SeparatorHere(tokens, span.start, span.end, w, 0);
    if w.entries != [] {
      ItemHere(tokens, span.start, span.end, w, 0);
    } else {
      NotPending(tokens, span.start, span.end, w);
    }
  }

  lemma NotPending(tokens: seq<Token>, start: nat, end: nat, w: Json)
    requires Stretch(tokens, start, end, w) && w.Container? && !w.record
    ensures !Pending(w.phase)
  {
    PhaseIs(w);
  }

  /** An item of an array stands where its comma ends. */
  lemma ItemHere(tokens: seq<Token>, start: nat, end: nat, w: Json, i: nat)
    requires Stretch(tokens, start, end, w) && w.Container? && !w.record && i < |w.entries|
    ensures KeyAt(w, i) == HeadAt(w, i) && ValueHere(tokens, start + KeyAt(w, i), end, w.entries[i].value)
    ensures start + At(w, i + 1) == start + KeyAt(w, i) + |Spell(w.entries[i].value)|
    ensures var t := Peek(tokens, start + KeyAt(w, i), end); t != ArrayEnd && t != End && IsValue(t)
    ensures At(w, 0) == 1
  {
    hide Spell, Partial, At, Stretch, ValueHere;
    AfterParts(tokens, start, end, w, 0);
    BetweenParts(tokens, start, end, w, i);
    PartHere(tokens, start, end, w, i);
    InBounds(tokens, start + ValueAt(w, i), end, w.entries[i].value);
    var doc := FirstRead(tokens, start + ValueAt(w, i), end, w.entries[i].value);
  }

  lemma NotArray(tokens: seq<Token>, trees: set<Json>, w: Json, arrays: seq<ArrayCursor>)
    requires ArraysShow(tokens, trees, arrays, 0) && (w.Scalar? || w.record || w.entries == [])
    ensures ArraysShow(tokens, trees + {w}, arrays, 0)
  {
    hide GoodCursor;
    ActiveJoin(trees, w, 0);
  }

  lemma ArrayAdded(tokens: seq<Token>, trees: set<Json>, w: Json, arrays: seq<ArrayCursor>, span: Span)
    requires ArraysShow(tokens, trees, arrays, 0) && w.Container? && !w.record && w.entries != [] && KeyAt(w, 0) == 1
    requires HasTree(tokens, span.start, span.end) && w == TreeOf(tokens, span.start, span.end)
    ensures ArraysShow(tokens, trees + {w}, arrays + [ArrayCursor(span.start, span.end, span.start + 1)], 0)
  {
    hide Spell, Partial, At, KeyAt;
    var c := ArrayCursor(span.start, span.end, span.start + 1);
    ActiveJoin(trees, w, 0);
    PushCursor(tokens, arrays, c);
    assert GoodCursor(tokens, c, 0);
    MoreCursors(tokens, arrays, c, 0);
  }

  // ---- one round over all arrays ----

  /** The arrays before `position` have been read in this round, the others not yet. */
  ghost predicate RoundShows(tokens: seq<Token>, trees: set<Json>, arrays: seq<ArrayCursor>, position: nat,
                             done: set<Json>, i: nat)
    requires position <= |arrays|
  {
    && GoodCursors(tokens, arrays[..position], i + 1) && GoodCursors(tokens, arrays[position..], i)
    && done + CursorTrees(tokens, arrays[position..]) == Active(trees, i)
    && CursorTrees(tokens, arrays[..position]) == LongerThan(done, i + 1)
  }

  ghost function LongerThan(arrays: set<Json>, n: nat): set<Json> {
    set w | w in arrays && w.Container? && n < |w.entries|
  }

  lemma RoundBegins(tokens: seq<Token>, arrays: seq<ArrayCursor>, trees: set<Json>, i: nat)
    requires ArraysShow(tokens, trees, arrays, i)
    ensures RoundShows(tokens, trees, arrays, 0, {}, i) && ItemsAt({}, i) == {}
  {
    hide GoodCursor, Active;
    assert arrays[0..] == arrays && arrays[..0] == [];
  }

  lemma CursorTree(tokens: seq<Token>, c: ArrayCursor, i: nat)
    requires GoodCursor(tokens, c, i)
    ensures var w := TreeOf(tokens, c.start, c.end);
      HasTree(tokens, c.start, c.end) && TreeAt(tokens, Span(c.start, c.end)) == w && w.Container? && !w.record
        && i < |w.entries|
  {
  }

  lemma RoundNext(tokens: seq<Token>, trees: set<Json>, arrays: seq<ArrayCursor>, position: nat, done: set<Json>,
                  i: nat)
    requires position < |arrays| && RoundShows(tokens, trees, arrays, position, done, i)
    ensures GoodCursor(tokens, arrays[position], i)
    ensures var c := arrays[position]; var w := TreeOf(tokens, c.start, c.end);
      && w.Container? && !w.record && i < |w.entries|
      && ValueHere(tokens, c.at, c.end, w.entries[i].value)
      && c.start + At(w, i + 1) == c.at + |Spell(w.entries[i].value)|
  {
    var c := arrays[position];
    SplitAt(tokens, arrays, position, i);
    CursorTree(tokens, c, i);
    hide At, KeyAt, Spell, Partial, ValueHere, CursorTrees, Active, LongerThan;
    ItemHere(tokens, c.start, c.end, TreeOf(tokens, c.start, c.end), i);
  }

  lemma TakeCursor(tokens: seq<Token>, arrays: seq<ArrayCursor>, position: nat)
    requires position < |arrays|
    ensures CursorTrees(tokens, arrays[position..]) ==
      CursorTrees(tokens, arrays[position + 1..]) + {TreeAt(tokens, Span(arrays[position].start, arrays[position].end))}
  {
    hide TreeAt;
    var rest, one := arrays[position + 1..], [arrays[position]];
    forall t ensures t in CursorTrees(tokens, arrays[position..]) <==> t in CursorTrees(tokens, rest + one) {
      assert arrays[position..] == one + rest;
      assert forall c :: c in one + rest <==> c in rest + one;
    }
    PushCursor(tokens, rest, arrays[position]);
  }

  lemma SplitAt(tokens: seq<Token>, arrays: seq<ArrayCursor>, position: nat, i: nat)
    requires position < |arrays| && GoodCursors(tokens, arrays[position..], i)
    ensures GoodCursor(tokens, arrays[position], i) && GoodCursors(tokens, arrays[position + 1..], i)
  {
    hide GoodCursor;
    assert arrays[position..][0] == arrays[position];
    forall c | c in arrays[position + 1..] ensures c in arrays[position..] {
      var k :| position + 1 <= k < |arrays| && arrays[k] == c;
      assert arrays[position..][k - position] == c;
    }
  }

  lemma MoreCursors(tokens: seq<Token>, arrays: seq<ArrayCursor>, c: ArrayCursor, i: nat)
    requires GoodCursors(tokens, arrays, i) && GoodCursor(tokens, c, i)
    ensures GoodCursors(tokens, arrays + [c], i)
  {
    hide GoodCursor;
  }

  lemma LongerJoin(done: set<Json>, w: Json, n: nat)
    requires w.Container?
    ensures LongerThan(done + {w}, n) == LongerThan(done, n) + (if n < |w.entries| then {w} else {})
  {
  }

  lemma RoundKeeps(tokens: seq<Token>, trees: set<Json>, arrays: seq<ArrayCursor>, position: nat, done: set<Json>,
                   i: nat, next: ArrayCursor)
    requires position < |arrays| && RoundShows(tokens, trees, arrays, position, done, i)
    requires GoodCursor(tokens, next, i + 1) && next.start == arrays[position].start && next.end == arrays[position].end
    ensures RoundShows(tokens, trees, arrays[position := next], position + 1,
      done + {TreeOf(tokens, next.start, next.end)}, i)
  {
    hide CursorTrees, Active, TreeAt, LongerThan, GoodCursors;
    CursorTree(tokens, next, i + 1);
    TakeCursor(tokens, arrays, position);
    SplitAt(tokens, arrays, position, i);
    MoreCursors(tokens, arrays[..position], next, i + 1);
    var after := arrays[position := next];
    var w := TreeOf(tokens, next.start, next.end);
    assert after[..position + 1] == arrays[..position] + [next] && after[position + 1..] == arrays[position + 1..];
    PushCursor(tokens, arrays[..position], next);
    LongerJoin(done, w, i + 1);
  }

  lemma RoundDrops(tokens: seq<Token>, trees: set<Json>, arrays: seq<ArrayCursor>, position: nat, done: set<Json>,
                   i: nat)
    requires position < |arrays| && RoundShows(tokens, trees, arrays, position, done, i)
    requires HasTree(tokens, arrays[position].start, arrays[position].end)
    requires var w := TreeOf(tokens, arrays[position].start, arrays[position].end); w.Container? && |w.entries| <= i + 1
    ensures var m := |arrays| - 1;
      RoundShows(tokens, trees, if position < m then arrays[..m][position := arrays[m]] else arrays[..m], position,
                 done + {TreeOf(tokens, arrays[position].start, arrays[position].end)}, i)
  {
    var m := |arrays| - 1;
    var after := if position < m then arrays[..m][position := arrays[m]] else arrays[..m];
    var w := TreeOf(tokens, arrays[position].start, arrays[position].end);
    assert TreeAt(tokens, Span(arrays[position].start, arrays[position].end)) == w;
    DropsShow(tokens, trees, arrays, after, position, done, w, i);
  }

  lemma DropsShow(tokens: seq<Token>, trees: set<Json>, arrays: seq<ArrayCursor>, after: seq<ArrayCursor>,
                  position: nat, done: set<Json>, w: Json, i: nat)
    requires position < |arrays| && RoundShows(tokens, trees, arrays, position, done, i)
    requires after ==
      if position < |arrays| - 1 then arrays[..|arrays| - 1][position := arrays[|arrays| - 1]]
      else arrays[..|arrays| - 1]
    requires TreeAt(tokens, Span(arrays[position].start, arrays[position].end)) == w
    requires w.Container?
    requires |w.entries| <= i + 1
    ensures RoundShows(tokens, trees, after, position, done + {w}, i)
  {
    hide CursorTrees, Active, TreeAt, LongerThan, GoodCursors, GoodCursor;
    TakeCursor(tokens, arrays, position);
    SplitAt(tokens, arrays, position, i);
    SameCursors(arrays, after, position);
    SameContents(tokens, arrays[position + 1..], after[position..], i);
    LongerJoin(done, w, i + 1);
    assert after[..position] == arrays[..position];
    SameUnion(done, w, CursorTrees(tokens, arrays[position + 1..]));
  }

  lemma SameUnion(done: set<Json>, w: Json, rest: set<Json>)
    ensures done + (rest + {w}) == done + {w} + rest
  {
  }

  lemma SameContents(tokens: seq<Token>, a: seq<ArrayCursor>, b: seq<ArrayCursor>, i: nat)
    requires forall c :: c in a <==> c in b
    ensures GoodCursors(tokens, a, i) <==> GoodCursors(tokens, b, i)
    ensures CursorTrees(tokens, a) == CursorTrees(tokens, b)
  {
    hide GoodCursor, TreeAt;
  }

  lemma SameCursors(arrays: seq<ArrayCursor>, after: seq<ArrayCursor>, position: nat)
    requires position < |arrays|
    requires after ==
      if position < |arrays| - 1 then arrays[..|arrays| - 1][position := arrays[|arrays| - 1]]
      else arrays[..|arrays| - 1]
    ensures forall c :: c in after[position..] <==> c in arrays[position + 1..]
  {
    var m := |arrays| - 1;
    if position < m {
      var a, b := after[position..], arrays[position + 1..];
      assert a == [arrays[m]] + arrays[position + 1..m] && b == arrays[position + 1..m] + [arrays[m]];
    } else {
      assert after[position..] == [] && arrays[position + 1..] == [];
    }
  }

  lemma RoundEnds(tokens: seq<Token>, trees: set<Json>, arrays: seq<ArrayCursor>, done: set<Json>, i: nat)
    requires RoundShows(tokens, trees, arrays, |arrays|, done, i)
    ensures ArraysShow(tokens, trees, arrays, i + 1) && done == Active(trees, i)
  {
    hide GoodCursor;
    assert arrays[|arrays|..] == [] && arrays[..|arrays|] == arrays;
  }

  lemma ItemJoin(done: set<Json>, w: Json, i: nat)
    requires w.Container? && i < |w.entries|
    ensures ItemsAt(done + {w}, i) == ItemsAt(done, i) + {w.entries[i].value}
  {
  }

  // ---- the rounds together ----

  ghost function IndexSegments(n: nat): (r: seq<Segment>)
    ensures |r| == n
  {
    seq(n, i requires 0 <= i < n => Index(i))
  }

  ghost function FieldSegments(fields: seq<NamedGroup>): (r: seq<Segment>)
    ensures |r| == |fields|
  {
    seq(|fields|, i requires 0 <= i < |fields| => Field(fields[i].name))
  }

  lemma NewIndex(named: seq<Segment>, index: nat)
    requires forall s :: s in named ==> s.Field?
    ensures Index(index) !in named + IndexSegments(Min(index, LAST_INDEX + 1))
  {
  }

  lemma IndexSegmentsMore(named: seq<Segment>, index: nat)
    requires index <= LAST_INDEX
    ensures named + IndexSegments(index) + [Index(index)] == named + IndexSegments(index + 1)
  {
  }

  lemma NoIndexRepeats(trees: set<Json>, s: Segment)
    requires s.Index?
    ensures !SomeRepeats(trees, s)
  {
  }

  lemma NoItems(kind: DocumentKind, path: Path, trees: set<Json>)
    ensures !FoldsItems(kind, path, trees, 0)
  {
  }

  lemma FoldsNext(kind: DocumentKind, path: Path, trees: set<Json>, i: nat)
    ensures FoldsItems(kind, path, trees, i + 1) <==>
      FoldsItems(kind, path, trees, i) || FoldsItem(kind, path, trees, i)
  {
    hide FoldsItem;
  }

  lemma NothingEmitted(kind: DocumentKind, path: Path, trees: set<Json>)
    ensures SegmentsEmitted(kind, path, trees, [], [])
  {
  }

  lemma NoTotal()
    ensures TotalSpans([]) == 0
  {
  }

  /** An array has no more items than the document has tokens. */
  lemma IndexBound(tokens: seq<Token>, trees: set<Json>, arrays: seq<ArrayCursor>, i: nat)
    requires ArraysShow(tokens, trees, arrays, i) && arrays != []
    ensures i < |tokens|
  {
    var c := arrays[0];
    assert GoodCursor(tokens, c, i);
    CursorTree(tokens, c, i);
    hide At, KeyAt, Spell, Partial;
    var w := TreeOf(tokens, c.start, c.end);
    EndIsIn(tokens, c.start, c.end, w);
    PartHere(tokens, c.start, c.end, w, i);
    OffsetAtLeast(tokens, c.start, c.end, w, i);
  }

  lemma {:induction false} OffsetAtLeast(tokens: seq<Token>, start: nat, end: nat, w: Json, i: nat)
    requires Stretch(tokens, start, end, w) && w.Container? && i <= |w.entries|
    ensures At(w, i) > i
  {
    hide Spell, Partial;
    if i > 0 {
      OffsetAtLeast(tokens, start, end, w, i - 1);
      PartHere(tokens, start, end, w, i - 1);
    }
  }

  lemma NoneActive(tokens: seq<Token>, trees: set<Json>, i: nat)
    requires ArraysShow(tokens, trees, [], i)
    ensures Active(trees, i) == {}
  {
  }

  lemma PartialSpans(tokens: seq<Token>, spans: seq<Span>)
    requires GoodSpans(tokens, spans)
    ensures AllPartial(TreesOf(tokens, spans))
  {
  }

  /** The group of the k-th name is the group of its parts. */
  lemma NextField(tokens: seq<Token>, kind: DocumentKind, path: Path, trees: set<Json>, fields: seq<NamedGroup>, k: nat)
    requires k < |fields| && FieldsShow(tokens, kind, path, trees, fields)
    ensures var f := fields[k];
      && Admits(kind, path, Field(f.name)) && GoodSpans(tokens, f.group.spans)
      && TreesOf(tokens, f.group.spans) == Parts(trees, Field(f.name))
      && (f.group.duplicate <==> SomeRepeats(trees, Field(f.name)))
      && Field(f.name) !in FieldSegments(fields[..k])
      && FieldSegments(fields[..k + 1]) == FieldSegments(fields[..k]) + [Field(f.name)]
      && TotalSpans(fields[k..]) == |f.group.spans| + TotalSpans(fields[k + 1..])
  {
    hide Admits, Parts, SomeRepeats, TreesOf, GoodSpans;
    assert GoodField(tokens, kind, path, trees, fields[k]);
    assert fields[k..][1..] == fields[k + 1..];
    var before := fields[..k];
    forall j | 0 <= j < k ensures FieldSegments(before)[j] != Field(fields[k].name) { assert before[j] == fields[j]; }
  }

  /** Names and indices together cover everything found. */
  lemma CoversAll(tokens: seq<Token>, kind: DocumentKind, path: Path, trees: set<Json>, fields: seq<NamedGroup>,
                  named: seq<Segment>, segments: seq<Segment>, rounds: nat)
    requires FieldsShow(tokens, kind, path, trees, fields)
    requires named == FieldSegments(fields)
    requires AllPartial(trees)
    requires Active(trees, rounds) == {}
    requires segments == named + IndexSegments(Min(rounds, LAST_INDEX + 1))
    ensures Covers(kind, path, trees, segments)
  {
    hide GoodField, AllPartial, Parts, SomeRepeats;
    forall s | Admits(kind, path, s) && Found(trees, s) ensures s in segments {
      if s.Field? {
        assert HasField(fields, s.name);
        var i :| 0 <= i < |fields| && fields[i].name == s.name;
        assert segments[i] == s;
      } else {
        AdmittedIndices(kind, path, s.index);
        NoIndexRepeats(trees, s);
        ItemsAreParts(trees, s.index);
        FewItems(trees, s.index, rounds);
        assert segments[|named| + s.index] == s;
      }
    }
  }

  lemma FewItems(trees: set<Json>, i: nat, rounds: nat)
    requires Active(trees, rounds) == {} && ItemsAt(Active(trees, i), i) != {}
    ensures i < rounds
  {
    var part :| part in ItemsAt(Active(trees, i), i);
    var w :| w in Active(trees, i);
    assert w !in Active(trees, rounds);
  }

  class ReplayState {
    const tokens: seq<Token>
    const kind: DocumentKind
    var emitted: seq<Path>
    var liveSpans: int
    var liveCursors: int

    constructor (tokens: seq<Token>, kind: DocumentKind)
      ensures this.tokens == tokens && this.kind == kind && emitted == [] && liveSpans == 0 && liveCursors == 0
    {
      this.tokens, this.kind := tokens, kind;
      emitted, liveSpans, liveCursors := [], 0, 0;
    }

    method AdmitsSegment(path: Path, segment: Segment) returns (r: bool)
      requires Location(kind, path) && |path| < Capacity(kind)
      ensures r <==> Admits(kind, path, segment)
    {
      hide Safe, CanName, Project;
      var safe := SchemaSafeLocalPath(kind, path + [segment]);
      ProjectOne(kind, path, segment);
      r := |safe| == |path| + 1;
    }

    /** Finds or makes the group of a name that can be located; a repetition marks the group, or else the owner. */
    method NoteName(path: Path, name: string, repeated: bool, owner: bool, fields: seq<NamedGroup>,
                    ghost before: set<Json>, ghost trees: set<Json>)
      returns (duplicate: bool, after: seq<NamedGroup>, child: Option<nat>)
      requires Location(kind, path) && |path| < Capacity(kind)
      requires FieldsShow(tokens, kind, path, before, fields) && Differ(before, trees, Field(name), {}, repeated)
      ensures FieldsShow(tokens, kind, path, trees, after) && TotalSpans(after) == TotalSpans(fields)
      ensures child.Some? <==> Admits(kind, path, Field(name))
      ensures child.Some? ==> child.value < |after| && after[child.value].name == name
      ensures duplicate <==> owner || (repeated && !Admits(kind, path, Field(name)))
    {
      hide Location, Admits, FieldsShow, Differ, TotalSpans, HasField, GoodSpans, TreesOf;
      duplicate, after := owner, fields;
      var admitted := AdmitsSegment(path, Field(name));
      if !admitted {
        if repeated { duplicate := true; }
        DifferUnlocated(kind, path, before, trees, Field(name), {}, repeated);
        FieldsKeep(tokens, kind, path, before, trees, fields);
        return duplicate, after, None;
      }
      child := FindField(fields, name);
      if child.None? {
        FieldAdded(tokens, kind, path, before, fields, name);
        TotalAppend(fields, NamedGroup(name, Group([], false)));
        child := Some(|fields|);
        after := fields + [NamedGroup(name, Group([], false))];
      }
      var f := after[child.value];
      var g := NamedGroup(name, Group(f.group.spans, f.group.duplicate || repeated));
      SameGroup(tokens, kind, path, before, after, child.value);
      FieldChanged(tokens, kind, path, before, trees, after, child.value, g, {}, repeated);
      TotalUpdate(after, child.value, g);
      after := after[child.value := g];
    }

    /** A member's value: kept as a span of its group, or folded when the name cannot be located. */
    method KeepPart(path: Path, at: nat, end: nat, child: Option<nat>, owner: bool, fields: seq<NamedGroup>,
                    ghost before: set<Json>, ghost trees: set<Json>, ghost segment: Segment, ghost v: Json)
      returns (duplicate: bool, after: seq<NamedGroup>, next: nat)
      requires ValueHere(tokens, at, end, v)
      requires FieldsShow(tokens, kind, path, before, fields)
      requires Differ(before, trees, segment, {v}, false)
      requires child.Some? <==> Admits(kind, path, segment)
      requires child.Some? ==> child.value < |fields| && segment == Field(fields[child.value].name)
      modifies this`liveSpans
      ensures FieldsShow(tokens, kind, path, trees, after) && next == at + |Spell(v)|
      ensures liveSpans - TotalSpans(after) == old(liveSpans) - TotalSpans(fields)
      ensures duplicate <==> owner || (!Admits(kind, path, segment) && Duplicates(v) != [])
    {
      hide Admits, FieldsShow, Differ, TotalSpans, HasField, GoodSpans, TreesOf, ValueHere, Spell, Duplicates;
      duplicate, after := owner, fields;
      if child.Some? {
        next := Capture(tokens, at, end, v);
        var f, span := fields[child.value], Span(at, next);
        SpanOf(tokens, at, end, v);
        SameGroup(tokens, kind, path, before, fields, child.value);
        PushSpan(tokens, f.group.spans, span, v);
        var g := NamedGroup(f.name, Group(f.group.spans + [span], f.group.duplicate));
        FieldChanged(tokens, kind, path, before, trees, fields, child.value, g, {v}, false);
        TotalUpdate(fields, child.value, g);
        liveSpans := liveSpans + 1;
        after := fields[child.value := g];
      } else {
        var folded;
        folded, next := Fold(tokens, at, end, v);
        if folded { duplicate := true; }
        DifferUnlocated(kind, path, before, trees, segment, {v}, false);
        FieldsKeep(tokens, kind, path, before, trees, fields);
      }
    }

    /** Moves past the comma after a member, if there is one. */
    method NextName(at: nat, end: nat, ghost start: nat, ghost w: Json, ghost n: nat) returns (next: nat)
      requires Stretch(tokens, start, end, w)
      requires w.Container?
      requires w.record
      requires 0 < n <= |w.entries|
      requires at == start + At(w, n)
      requires end <= |tokens|
      ensures AtName(tokens, start, end, w, n, next)
    {
      hide Stretch, At, Spell, HeadAt;
      SeparatorHere(tokens, start, end, w, n);
      var current := Peek(tokens, at, end);
      if current == Comma { return at + 1; }
      if current != ObjectEnd && current != End { assert false; }
      next := at;
    }

    /** Adds the members of one record, cut off or not, to the groups of their names. */
    method CollectRecord(path: Path, start: nat, end: nat, owner: bool, fields: seq<NamedGroup>,
                         ghost trees: set<Json>, ghost w: Json)
      returns (duplicate: bool, after: seq<NamedGroup>)
      requires Location(kind, path) && |path| < Capacity(kind)
      requires Stretch(tokens, start, end, w)
      requires w.Container?
      requires w.record
      requires FieldsShow(tokens, kind, path, trees, fields)
      modifies this`liveSpans
      ensures FieldsShow(tokens, kind, path, trees + {w}, after)
      ensures duplicate <==> owner || FoldsRecord(kind, path, w)
      ensures liveSpans - TotalSpans(after) == old(liveSpans) - TotalSpans(fields)
    {
      hide Location, Admits, FieldsShow, Differ, TotalSpans, HasField, Stretch, Spell, ValueHere, FoldsRecord, Names,
           Duplicates, HeadAt, At, SameFields, Prefix, WithKey, ReadUp;
      EndIsIn(tokens, start, end, w);
      RecordBegun(kind, path, trees, w);
      FieldsKeep(tokens, kind, path, trees, trees + {Prefix(w, 0)}, fields);
      PrefixNothing(kind, path, w);
      SeparatorHere(tokens, start, end, w, 0);
      HeadZero(w);
      duplicate, after := owner, fields;
      var keys: set<string> := {};
      var at: nat := start + 1;
      var current := Peek(tokens, at, end);
      ghost var n := 0;
      while current != End && current != ObjectEnd
        invariant 0 <= n <= |w.entries|
        invariant keys == Names(w.entries[..n])
        invariant current == Peek(tokens, at, end)
        invariant AtName(tokens, start, end, w, n, at)
        invariant FieldsShow(tokens, kind, path, trees + {Prefix(w, n)}, after)
        invariant duplicate <==> owner || FoldsRecord(kind, path, Prefix(w, n))
        invariant liveSpans - TotalSpans(after) == old(liveSpans) - TotalSpans(fields)
        decreases |w.entries| - n
      {
        NameHere(tokens, start, end, w, n);
        ghost var tag := TagAt(w, n);
        if !current.StringToken? { assert false; }
        var name := current.text;
        var repeated := name in keys;
        if !repeated { keys := keys + {name}; }
        KeyDiffers(kind, path, trees, w, n, tag);
        KeyFolds(kind, path, w, n, tag);
        var child;
        duplicate, after, child :=
          NoteName(path, name, repeated, duplicate, after, trees + {Prefix(w, n)}, trees + {WithKey(w, n, tag)});
        if n == |w.entries| { PendingIsLast(w); }
        current := Peek(tokens, at + 1, end);
        if current == End { RecordDone(kind, path, trees, w); Finish(kind, path, w, trees, tokens, after); return; }
        if current != Colon { assert false; }
        current := Peek(tokens, at + 2, end);
        if current == End { RecordDone(kind, path, trees, w); Finish(kind, path, w, trees, tokens, after); return; }
        ValueDiffers(kind, path, trees, w, n);
        ValueFolds(kind, path, w, n);
        var next;
        duplicate, after, next := KeepPart(path, at + 2, end, child, duplicate, after,
                                           trees + {WithKey(w, n, tag)}, trees + {Prefix(w, n + 1)}, SegmentAt(w, n),
                                             w.entries[n].value);
        NamesMore(w, n);
        n := n + 1;
        at := NextName(next, end, start, w, n);
        current := Peek(tokens, at, end);
      }
      NoNameLeft(tokens, start, end, w, n, at);
      RecordDone(kind, path, trees, w);
      Finish(kind, path, w, trees, tokens, after);
    }

    method FoldTerminalGroup(path: Path, group: Group) returns (ghost more: seq<Path>)
      requires Location(kind, path) && |path| == Capacity(kind) && GoodSpans(tokens, group.spans)
      modifies this
      ensures emitted == old(emitted) + more
      ensures EmittedFor(kind, path, TreesOf(tokens, group.spans), group.duplicate, more)
      ensures liveSpans == old(liveSpans) - |group.spans| && liveCursors == old(liveCursors)
    {
      hide Location, Duplicates, GroupReports, TreesOf, GoodSpans, Stretch, Spell, ValueHere;
      var spans, duplicate := group.spans, group.duplicate;
      ghost var trees := TreesOf(tokens, spans);
      ghost var done: set<Json> := {};
      while spans != []
        invariant GoodSpans(tokens, spans) && TreesOf(tokens, spans) + done == trees
        invariant duplicate <==> group.duplicate || exists w :: w in done && Duplicates(w) != []
        invariant liveSpans == old(liveSpans) - |group.spans| + |spans|
        invariant liveCursors == old(liveCursors)
        invariant emitted == old(emitted)
      {
        PopSpan(tokens, spans);
        var span := spans[|spans| - 1];
        ghost var w := TreeOf(tokens, span.start, span.end);
        spans := spans[..|spans| - 1];
        liveSpans := liveSpans - 1;
        liveCursors := liveCursors + 1;
        WholeSpan(tokens, span, w);
        var folded, end := Fold(tokens, span.start, span.end, w);
        if folded { duplicate := true; }
        liveCursors := liveCursors - 1;
        done := done + {w};
      }
      NoSpans(tokens);
      assert done == trees;
      more := if duplicate then [path] else [];
      forall q ensures GroupReports(kind, path, trees, group.duplicate, q) <==> q == path && duplicate {
        FullGroup(kind, path, trees, group.duplicate, q);
      }
      if duplicate { emitted := emitted + [path]; }
    }

    /** Sorts the values of a group into the groups of their members and the arrays still to be read. */
    method CollectGroupSpans(path: Path, group: Group)
      returns (duplicate: bool, fields: seq<NamedGroup>, arrays: seq<ArrayCursor>)
      requires Location(kind, path) && |path| < Capacity(kind) && GoodSpans(tokens, group.spans)
      modifies this`liveSpans, this`liveCursors
      ensures FieldsShow(tokens, kind, path, TreesOf(tokens, group.spans), fields)
      ensures ArraysShow(tokens, TreesOf(tokens, group.spans), arrays, 0)
      ensures duplicate <==> group.duplicate || FoldsRecords(kind, path, TreesOf(tokens, group.spans))
      ensures liveSpans == old(liveSpans) - |group.spans| + TotalSpans(fields)
      ensures liveCursors == old(liveCursors) + |arrays|
    {
      hide Location, Duplicates, TreesOf, GoodSpans, Stretch, Spell, ValueHere, FieldsShow, ArraysShow, FoldsRecords,
           FoldsRecord, TotalSpans, Admits, At;
      var spans := group.spans;
      duplicate, fields, arrays := group.duplicate, [], [];
      ghost var done: set<Json> := {};
      NothingDone(tokens, kind, path);
      while spans != []
        invariant GoodSpans(tokens, spans) && TreesOf(tokens, spans) + done == TreesOf(tokens, group.spans)
        invariant FieldsShow(tokens, kind, path, done, fields) && ArraysShow(tokens, done, arrays, 0)
        invariant duplicate <==> group.duplicate || FoldsRecords(kind, path, done)
        invariant liveSpans == old(liveSpans) - |group.spans| + |spans| + TotalSpans(fields)
        invariant liveCursors == old(liveCursors) + |arrays|
      {
        PopSpan(tokens, spans);
        var span := spans[|spans| - 1];
        ghost var w := TreeOf(tokens, span.start, span.end);
        spans := spans[..|spans| - 1];
        liveSpans := liveSpans - 1;
        liveCursors := liveCursors + 1;
        WholeSpan(tokens, span, w);
        FirstOf(tokens, span, w);
        JoinOne(kind, path, done, w, Index(0));
        var first := Peek(tokens, span.start, span.end);
        if first == ObjectStart {
          duplicate, fields := CollectRecord(path, span.start, span.end, duplicate, fields, done, w);
          NotArray(tokens, done, w, arrays);
          liveCursors := liveCursors - 1;
        } else {
          NoNamedParts(kind, path, done, w);
          FieldsKeep(tokens, kind, path, done, done + {w}, fields);
          if first == ArrayStart {
            var nameable := AdmitsSegment(path, Index(0));
            AdmittedIndices(kind, path, 0);
            // Below the capacity the first item can always be located, so arrays are never folded here.
            if !nameable { assert false; }
            var current := Peek(tokens, span.start + 1, span.end);
            FirstItem(tokens, span, w);
            if current != ArrayEnd && current != End {
              ArrayAdded(tokens, done, w, arrays, span);
              arrays := arrays + [ArrayCursor(span.start, span.end, span.start + 1)];
            } else {
              NotArray(tokens, done, w, arrays);
              liveCursors := liveCursors - 1;
            }
          } else {
            if !IsValue(first) { assert false; }
            NotArray(tokens, done, w, arrays);
            liveCursors := liveCursors - 1;
          }
        }
        done := done + {w};
      }
      NoSpans(tokens);
      assert done == TreesOf(tokens, group.spans);
    }

    /** Moves an array's cursor past the item it has just read. */
    method AdvanceArrayCursor(c: ArrayCursor, at: nat, ghost i: nat) returns (more: bool, next: ArrayCursor)
      requires GoodCursor(tokens, c, i) && at == c.start + At(TreeOf(tokens, c.start, c.end), i + 1)
      ensures more <==> i + 1 < |TreeOf(tokens, c.start, c.end).entries|
      ensures more ==> GoodCursor(tokens, next, i + 1) && next.start == c.start && next.end == c.end
    {
      hide At, KeyAt, Spell, Partial, HeadAt, Stretch;
      ghost var w := TreeOf(tokens, c.start, c.end);
      SeparatorHere(tokens, c.start, c.end, w, i + 1);
      NotPending(tokens, c.start, c.end, w);
      if i + 1 < |w.entries| { ItemHere(tokens, c.start, c.end, w, i + 1); }
      next := c.(at := at);
      var current := Peek(tokens, at, c.end);
      if current == Comma {
        next := c.(at := at + 1);
        current := Peek(tokens, at + 1, c.end);
      } else if current != ArrayEnd && current != End { assert false; }
      more := current != ArrayEnd && current != End;
    }

    /** Reads the next item of every array: into the spans of one group, or folded. */
    method ReadRound(arrays: seq<ArrayCursor>, child: bool, ghost trees: set<Json>, ghost i: nat)
      returns (folded: bool, spans: seq<Span>, after: seq<ArrayCursor>)
      requires ArraysShow(tokens, trees, arrays, i)
      modifies this`liveSpans, this`liveCursors
      ensures ArraysShow(tokens, trees, after, i + 1)
      ensures child ==> GoodSpans(tokens, spans) && TreesOf(tokens, spans) == ItemsAt(Active(trees, i), i) && !folded
      ensures !child ==>
        spans == [] && (folded <==> exists part :: part in ItemsAt(Active(trees, i), i) && Duplicates(part) != [])
      ensures liveSpans == old(liveSpans) + |spans| && liveCursors == old(liveCursors) - |arrays| + |after|
    {
      hide GoodCursor, CursorTrees, TreesOf, GoodSpans, ItemsAt, Active, At, KeyAt, Spell, ValueHere, Duplicates,
           Stretch;
      folded, spans, after := false, [], arrays;
      ghost var done: set<Json> := {};
      var position := 0;
      RoundBegins(tokens, arrays, trees, i);
      NoSpans(tokens);
      while position < |after|
        invariant 0 <= position <= |after|
        invariant RoundShows(tokens, trees, after, position, done, i)
        invariant child ==> GoodSpans(tokens, spans) && TreesOf(tokens, spans) == ItemsAt(done, i) && !folded
        invariant !child ==>
          spans == [] && (folded <==> exists part :: part in ItemsAt(done, i) && Duplicates(part) != [])
        invariant liveSpans == old(liveSpans) + |spans| && liveCursors == old(liveCursors) - |arrays| + |after|
        decreases |after| - position
      {
        var active := after[position];
        RoundNext(tokens, trees, after, position, done, i);
        ghost var w := TreeOf(tokens, active.start, active.end);
        ItemJoin(done, w, i);
        var at;
        if child {
          at := Capture(tokens, active.at, active.end, w.entries[i].value);
          SpanOf(tokens, active.at, active.end, w.entries[i].value);
          PushSpan(tokens, spans, Span(active.at, at), w.entries[i].value);
          spans := spans + [Span(active.at, at)];
          liveSpans := liveSpans + 1;
        } else {
          var one;
          one, at := Fold(tokens, active.at, active.end, w.entries[i].value);
          if one { folded := true; }
        }
        var more, next := AdvanceArrayCursor(active, at, i);
        if !more {
          RoundDrops(tokens, trees, after, position, done, i);
          liveCursors := liveCursors - 1;
          var last := after[|after| - 1];
          after := after[..|after| - 1];
          if position < |after| { after := after[position := last]; }
        } else {
          RoundKeeps(tokens, trees, after, position, done, i, next);
          after := after[position := next];
          position := position + 1;
        }
        done := done + {w};
      }
      RoundEnds(tokens, trees, after, done, i);
    }

    method Visit(path: Path, group: Group) returns (ghost more: seq<Path>)
      requires Location(kind, path) && GoodSpans(tokens, group.spans)
      modifies this
      ensures emitted == old(emitted) + more
      ensures EmittedFor(kind, path, TreesOf(tokens, group.spans), group.duplicate, more)
      ensures liveSpans == old(liveSpans) - |group.spans| && liveCursors == old(liveCursors)
      decreases Capacity(kind) - |path|, 1
    {
      hide Safe, GroupReports, TreesOf, GoodSpans, EmittedFor, FieldsShow, ArraysShow, FoldsRecords, TotalSpans,
           SegmentsEmitted, Covers, Folds, FoldsItems;
      if |path| == Capacity(kind) {
        more := FoldTerminalGroup(path, group);
        return;
      }
      ghost var trees := TreesOf(tokens, group.spans);
      PartialSpans(tokens, group.spans);
      var duplicate, fields, arrays := CollectGroupSpans(path, group);
      ghost var named;
      more, named := VisitFields(path, fields, trees);
      ghost var items, segments, rounds;
      var folded;
      folded, items, segments, rounds := VisitArrays(path, arrays, trees, named, more);
      FoldsSplit(kind, path, trees, rounds);
      CoversAll(tokens, kind, path, trees, fields, named, segments, rounds);
      more := more + items;
      duplicate := duplicate || folded;
      EmitOwn(kind, path, trees, group.duplicate, duplicate, segments, more);
      if duplicate {
        emitted := emitted + [path];
        more := more + [path];
      }
    }

    /** Visits the groups of the names in the order in which they were first read. */
    method VisitFields(path: Path, fields: seq<NamedGroup>, ghost trees: set<Json>)
      returns (ghost more: seq<Path>, ghost segments: seq<Segment>)
      requires Location(kind, path) && |path| < Capacity(kind) && FieldsShow(tokens, kind, path, trees, fields)
      modifies this
      ensures emitted == old(emitted) + more && SegmentsEmitted(kind, path, trees, segments, more)
      ensures segments == FieldSegments(fields)
      ensures liveSpans == old(liveSpans) - TotalSpans(fields) && liveCursors == old(liveCursors)
      decreases Capacity(kind) - |path|, 0
    {
      hide Safe, GroupReports, TreesOf, GoodSpans, EmittedFor, SegmentsEmitted, Parts, SomeRepeats, FieldsShow,
           TotalSpans;
      more, segments := [], [];
      NothingEmitted(kind, path, trees);
      var k := 0;
      assert fields[0..] == fields;
      while k < |fields|
        invariant 0 <= k <= |fields| && segments == FieldSegments(fields[..k])
        invariant emitted == old(emitted) + more && SegmentsEmitted(kind, path, trees, segments, more)
        invariant liveSpans == old(liveSpans) - TotalSpans(fields) + TotalSpans(fields[k..])
        invariant liveCursors == old(liveCursors)
      {
        var f := fields[k];
        NextField(tokens, kind, path, trees, fields, k);
        OwnerBelow(kind, path, [Field(f.name)]);
        ghost var part := Visit(path + [Field(f.name)], f.group);
        EmitSegment(kind, path, trees, segments, Field(f.name), more, part);
        more := more + part;
        segments := segments + [Field(f.name)];
        k := k + 1;
      }
      assert fields[..k] == fields && fields[k..] == [];
      NoTotal();
    }

    /** Reads all arrays in step and visits the group of every index that can be located. */
    method VisitArrays(path: Path, arrays: seq<ArrayCursor>, ghost trees: set<Json>, ghost named: seq<Segment>,
                       ghost before: seq<Path>)
      returns (folded: bool, ghost more: seq<Path>, ghost segments: seq<Segment>, ghost rounds: nat)
      requires Location(kind, path)
      requires |path| < Capacity(kind)
      requires AllPartial(trees)
      requires ArraysShow(tokens, trees, arrays, 0)
      requires SegmentsEmitted(kind, path, trees, named, before) && forall s :: s in named ==> s.Field?
      modifies this
      ensures emitted == old(emitted) + more && SegmentsEmitted(kind, path, trees, segments, before + more)
      ensures segments == named + IndexSegments(Min(rounds, LAST_INDEX + 1)) && Active(trees, rounds) == {}
      ensures folded <==> FoldsItems(kind, path, trees, rounds)
      ensures liveSpans == old(liveSpans) && liveCursors == old(liveCursors) - |arrays|
      decreases Capacity(kind) - |path|, 0
    {
      hide Safe, GroupReports, TreesOf, GoodSpans, EmittedFor, SegmentsEmitted, Parts, SomeRepeats, ArraysShow,
           AllPartial, Active, ItemsAt, FoldsItems, Duplicates, IndexSegments;
      var index, projectItems, current := 0, true, arrays;
      folded, more, segments := false, [], named;
      assert before + [] == before;
      NoItems(kind, path, trees);
      assert named + IndexSegments(0) == named;
      while current != []
        invariant 0 <= index && index <= |tokens| + 1 && ArraysShow(tokens, trees, current, index)
        invariant projectItems || index > LAST_INDEX
        invariant emitted == old(emitted) + more && SegmentsEmitted(kind, path, trees, segments, before + more)
        invariant segments == named + IndexSegments(Min(index, LAST_INDEX + 1))
        invariant folded <==> FoldsItems(kind, path, trees, index)
        invariant liveSpans == old(liveSpans) && liveCursors == old(liveCursors) - |arrays| + |current|
        decreases |tokens| + 1 - index
      {
        IndexBound(tokens, trees, current, index);
        AdmittedIndices(kind, path, index);
        if projectItems {
          var admitted := AdmitsSegment(path, Index(index));
          if !admitted { projectItems := false; }
        }
        ItemsAreParts(trees, index);
        var one, spans;
        one, spans, current := ReadRound(current, projectItems, trees, index);
        if one { folded := true; }
        FoldsNext(kind, path, trees, index);
        if projectItems {
          OwnerBelow(kind, path, [Index(index)]);
          NoIndexRepeats(trees, Index(index));
          ghost var part := Visit(path + [Index(index)], Group(spans, false));
          NewIndex(named, index);
          EmitSegment(kind, path, trees, segments, Index(index), before + more, part);
          assert before + more + part == before + (more + part);
          more := more + part;
          segments := segments + [Index(index)];
          IndexSegmentsMore(named, index);
        }
        index := index + 1;
      }
      rounds := index;
      NoneActive(tokens, trees, index);
    }
  }

  lemma SameGroup(tokens: seq<Token>, kind: DocumentKind, path: Path, trees: set<Json>, fields: seq<NamedGroup>, k: nat)
    requires FieldsShow(tokens, kind, path, trees, fields) && k < |fields|
    ensures GoodSpans(tokens, fields[k].group.spans)
    ensures TreesOf(tokens, fields[k].group.spans) + {} == TreesOf(tokens, fields[k].group.spans)
  {
    assert GoodField(tokens, kind, path, trees, fields[k]);
  }

  // ---- the replay of a committed prefix ----

  /** A repeated name of the document is reported at q. */
  ghost predicate DuplicateReported(kind: DocumentKind, duplicates: seq<Path>, q: Path) {
    exists p :: p in duplicates && OwnerOf(kind, p) == q
  }

  lemma RootReports(kind: DocumentKind, v: Json, q: Path)
    ensures GroupReports(kind, [], {v}, false, q) <==> DuplicateReported(kind, Duplicates(v), q)
  {
    hide OwnerOf, Duplicates;
    forall p: Path ensures [] + p == p { }
    if p :| p in Duplicates(v) && OwnerOf(kind, p) == q { assert v in {v} && OwnerOf(kind, [] + p) == q; }
    if GroupReports(kind, [], {v}, false, q) {
      var w, p :| w in {v} && p in Duplicates(w) && OwnerOf(kind, [] + p) == q;
      assert p in Duplicates(v) && OwnerOf(kind, p) == q;
    }
  }

  lemma RootSpan(tokens: seq<Token>, observedEnd: nat, v: Json)
    requires observedEnd <= |tokens| && Partial(v) && Spell(v) == tokens[..observedEnd]
    ensures GoodSpans(tokens, [Span(0, observedEnd)]) && TreesOf(tokens, [Span(0, observedEnd)]) == {v}
  {
    assert tokens[0..observedEnd] == tokens[..observedEnd];
    assert Stretch(tokens, 0, observedEnd, v);
    NoSpans(tokens);
    PushSpan(tokens, [], Span(0, observedEnd), v);
    assert [] + [Span(0, observedEnd)] == [Span(0, observedEnd)];
  }

  /**
   * Replays the committed prefix of a scan: emits the location of every repeated name of it, each once,
   * and releases every span and cursor, so that the final check never throws.
   */
  method VisitRawDuplicatePaths(tokens: seq<Token>, observedEnd: nat, kind: DocumentKind, ghost doc: Document)
    returns (emitted: seq<Path>)
    requires observedEnd <= |tokens| && Sound(doc) && Spelled(doc) == tokens[..observedEnd]
    ensures Distinct(emitted)
    ensures forall q :: q in emitted <==> DuplicateReported(kind, if doc.Some? then Duplicates(doc.value) else [], q)
  {
    hide Safe, Duplicates, GroupReports, TreesOf, GoodSpans, Spell, Partial;
    var state := new ReplayState(tokens, kind);
    SpelledEmpty(doc);
    if observedEnd != 0 {
      SpelledSome(doc, doc);
      RootSpan(tokens, observedEnd, doc.value);
      state.liveSpans := 1;
      OwnersAreLocations(kind, []);
      ghost var more := state.Visit([], Group([Span(0, observedEnd)], false));
      assert state.emitted == more;
      forall q
        ensures GroupReports(kind, [], {doc.value}, false, q) <==> DuplicateReported(kind, Duplicates(doc.value), q) {
        RootReports(kind, doc.value, q);
      }
    }
    if state.liveSpans != 0 || state.liveCursors != 0 { assert false; }
    emitted := state.emitted;
  }
}
