/** The values found at one location, and how what is reported of them splits over the locations below. */
module ReplayGroups {
  import opened Sequences
  import opened Paths
  import opened JsonTree
  import opened DuplicateNames
  import opened DocumentShape

  // ---- the repeated names of one container ----

  ghost predicate RepeatedAt(es: seq<Entry>, i: nat, name: string)
    requires i < |es|
  {
    es[i].tag.Key? && es[i].tag.text == name && name in Names(es[..i])
  }

  ghost predicate RepeatedFirst(es: seq<Entry>, n: nat, name: string)
    requires n <= |es|
  {
    exists i :: 0 <= i < n && RepeatedAt(es, i, name)
  }

  ghost predicate PendingRepeats(v: Json, name: string)
    requires v.Container?
  {
    Pending(v.phase) && v.phase.key.Key? && v.phase.key.text == name && name in Names(v.entries)
  }

  /** An object has a second member of this name, perhaps without a value yet. */
  ghost predicate Repeats(v: Json, name: string)
    requires v.Container?
  {
    RepeatedFirst(v.entries, |v.entries|, name) || PendingRepeats(v, name)
  }

  ghost predicate InChild(es: seq<Entry>, i: nat, p: Path)
    requires i < |es|
  {
    p != [] && p[0] == SegmentOf(es[i].tag, i) && p[1..] in Duplicates(es[i].value)
  }

  lemma UnderContains(s: Segment, paths: seq<Path>, p: Path)
    ensures p in Under(s, paths) <==> p != [] && p[0] == s && p[1..] in paths
  {
    if p in Under(s, paths) {
      var i :| 0 <= i < |paths| && Under(s, paths)[i] == p;
      assert p[1..] == paths[i];
    }
    if p != [] && p[0] == s && p[1..] in paths {
      var i :| 0 <= i < |paths| && paths[i] == p[1..];
      assert Under(s, paths)[i] == p;
    }
  }

  lemma {:induction false} DuplicatesInCases(es: seq<Entry>, p: Path)
    ensures p in DuplicatesIn(es) <==>
      (p != [] && p == [p[0]] && p[0].Field? && RepeatedFirst(es, |es|, p[0].name)) || exists i ::
        0 <= i < |es| && InChild(es, i, p)
    decreases |es|
  {
    if es != [] {
      var n := |es| - 1;
      var init, e := es[..n], es[n];
      DuplicatesInCases(init, p);
      UnderContains(SegmentOf(e.tag, n), Duplicates(e.value), p);
      hide Duplicates, Names;
      if p != [] && p[0].Field? { RepeatedInit(es, p[0].name); }
      ChildInit(es, p);
      assert p in DuplicatesIn(es) <==>
        p in DuplicatesIn(init) || p in Repeated(Names(init), e.tag) || p in DuplicatesOf(n, e);
      assert p in Repeated(Names(init), e.tag) <==>
        p != [] && p == [p[0]] && p[0].Field? && RepeatedAt(es, n, p[0].name);
    }
  }

  lemma RepeatedInit(es: seq<Entry>, name: string)
    requires es != []
    ensures var n := |es| - 1;
      RepeatedFirst(es, |es|, name) <==> RepeatedFirst(es[..n], n, name) || RepeatedAt(es, n, name)
  {
    hide Names;
    var n := |es| - 1;
    forall i | 0 <= i < n ensures RepeatedAt(es, i, name) <==> RepeatedAt(es[..n], i, name) {
      assert es[..n][..i] == es[..i];
    }
  }

  lemma ChildInit(es: seq<Entry>, p: Path)
    requires es != []
    ensures var n := |es| - 1;
      (exists i :: 0 <= i < |es| && InChild(es, i, p)) <==>
        (exists i :: 0 <= i < n && InChild(es[..n], i, p)) || InChild(es, n, p)
  {
    hide Duplicates;
    var n := |es| - 1;
    forall i | 0 <= i < n ensures InChild(es, i, p) <==> InChild(es[..n], i, p) { }
  }

  /** A repeated name of a container is its own or one of a part. */
  lemma DuplicatesCases(v: Json, p: Path)
    requires v.Container?
    ensures p in Duplicates(v) <==>
      (p != [] && p == [p[0]] && p[0].Field? && Repeats(v, p[0].name)) || exists i ::
        0 <= i < |v.entries| && InChild(v.entries, i, p)
  {
    DuplicatesInCases(v.entries, p);
    ContainerDuplicates(v);
    hide Duplicates, DuplicatesIn, Names, InChild, RepeatedFirst;
  }

  lemma {:induction false} DuplicatesNotEmpty(v: Json, p: Path)
    requires p in Duplicates(v)
    ensures v.Container? && p != []
  {
    if v.Container? { DuplicatesCases(v, p); }
  }

  // ---- groups ----

  /** A repeated name inside one of these values is reported at q, or the location itself is. */
  ghost predicate GroupReports(kind: DocumentKind, path: Path, trees: set<Json>, flag: bool, q: Path) {
    (flag && q == path) || exists w, p :: w in trees && p in Duplicates(w) && OwnerOf(kind, path + p) == q
  }

  ghost predicate HasPart(v: Json, segment: Segment, part: Json) {
    v.Container? && exists i :: 0 <= i < |v.entries| && SegmentAt(v, i) == segment && v.entries[i].value == part
  }

  /** The parts of the values at one segment: several when a name is repeated. */
  ghost function Parts(trees: set<Json>, segment: Segment): set<Json> {
    set w, i | w in trees && w.Container? && 0 <= i < |w.entries| && SegmentAt(w, i) == segment :: w.entries[i].value
  }

  ghost predicate RepeatsSegment(v: Json, segment: Segment) {
    v.Container? && segment.Field? && Repeats(v, segment.name)
  }

  ghost predicate SomeRepeats(trees: set<Json>, segment: Segment) {
    exists w :: w in trees && RepeatsSegment(w, segment)
  }

  /** What a value contributes to its own location: whatever cannot be located further down. */
  ghost predicate FoldsPart(kind: DocumentKind, path: Path, v: Json, i: nat)
    requires v.Container? && i < |v.entries|
  {
    !Admits(kind, path, SegmentAt(v, i)) && Duplicates(v.entries[i].value) != []
  }

  ghost predicate FoldsName(kind: DocumentKind, path: Path, v: Json, segment: Segment) {
    RepeatsSegment(v, segment) && !Admits(kind, path, segment)
  }

  ghost predicate FoldsOne(kind: DocumentKind, path: Path, v: Json) {
    v.Container?
      && ((exists segment :: FoldsName(kind, path, v, segment)) || exists i ::
        0 <= i < |v.entries| && FoldsPart(kind, path, v, i))
  }

  ghost predicate Folds(kind: DocumentKind, path: Path, trees: set<Json>) {
    exists w :: w in trees && FoldsOne(kind, path, w)
  }

  ghost predicate PartsReport(kind: DocumentKind, path: Path, trees: set<Json>, segment: Segment, q: Path) {
    Admits(kind, path, segment)
      && GroupReports(kind, path + [segment], Parts(trees, segment), SomeRepeats(trees, segment), q)
  }

  lemma PartIn(trees: set<Json>, w: Json, i: nat)
    requires w in trees && w.Container? && i < |w.entries|
    ensures w.entries[i].value in Parts(trees, SegmentAt(w, i))
  {
  }

  lemma PartOf(trees: set<Json>, segment: Segment, part: Json) returns (w: Json, i: nat)
    requires part in Parts(trees, segment)
    ensures w in trees && w.Container? && i < |w.entries| && SegmentAt(w, i) == segment && w.entries[i].value == part
  {
    w, i :| w in trees && w.Container? && 0 <= i < |w.entries| && SegmentAt(w, i) == segment
      && w.entries[i].value == part;
  }

  lemma ReportsBelowGroup(kind: DocumentKind, path: Path, trees: set<Json>, flag: bool, q: Path)
    requires Location(kind, path) && GroupReports(kind, path, trees, flag, q)
    ensures path <= q
  {
    hide Location, OwnerOf, Duplicates;
    if !(flag && q == path) {
      var w, p :| w in trees && p in Duplicates(w) && OwnerOf(kind, path + p) == q;
      OwnerBelow(kind, path, p);
    }
  }

  /** A repeated name is reported at the location of its group or through the group of a part. */
  lemma SplitDown(kind: DocumentKind, path: Path, trees: set<Json>, q: Path, w: Json, p: Path)
    returns (segment: Segment)
    requires Location(kind, path) && w in trees && p in Duplicates(w) && OwnerOf(kind, path + p) == q
    ensures (q == path && Folds(kind, path, trees)) || PartsReport(kind, path, trees, segment, q)
  {
    hide Location, OwnerOf, Duplicates, Repeats, Parts, Admits;
    DuplicatesNotEmpty(w, p);
    DuplicatesCases(w, p);
    OwnerBelow(kind, path, p);
    segment := p[0];
    if p == [segment] && segment.Field? && Repeats(w, segment.name) {
      assert RepeatsSegment(w, segment);
      if Admits(kind, path, segment) {
        SelfOwned(kind, path + [segment]);
        assert SomeRepeats(trees, segment);
      } else {
        assert FoldsName(kind, path, w, segment);
        assert FoldsOne(kind, path, w);
      }
    } else {
      var i :| 0 <= i < |w.entries| && InChild(w.entries, i, p);
      var part := w.entries[i].value;
      assert p == [segment] + p[1..] && path + p == path + [segment] + p[1..];
      if Admits(kind, path, segment) {
        PartIn(trees, w, i);
        assert part in Parts(trees, segment) && p[1..] in Duplicates(part)
          && OwnerOf(kind, path + [segment] + p[1..]) == q;
      } else {
        assert FoldsPart(kind, path, w, i);
        assert FoldsOne(kind, path, w);
      }
    }
  }

  lemma SelfOwned(kind: DocumentKind, path: Path)
    requires Location(kind, path)
    ensures OwnerOf(kind, path) == path
  {
    LocationIffSelfOwned(kind, path);
  }

  lemma FoldsUp(kind: DocumentKind, path: Path, trees: set<Json>, flag: bool)
    requires Location(kind, path) && Folds(kind, path, trees)
    ensures GroupReports(kind, path, trees, flag, path)
  {
    hide Location, OwnerOf, Duplicates, Repeats, Admits;
    var w :| w in trees && FoldsOne(kind, path, w);
    if segment :| FoldsName(kind, path, w, segment) {
      var p := [segment];
      DuplicatesCases(w, p);
      OwnerBelow(kind, path, p);
      assert p in Duplicates(w) && OwnerOf(kind, path + p) == path;
    } else {
      var i :| 0 <= i < |w.entries| && FoldsPart(kind, path, w, i);
      var p := [SegmentAt(w, i)] + Duplicates(w.entries[i].value)[0];
      assert p[1..] == Duplicates(w.entries[i].value)[0];
      assert InChild(w.entries, i, p);
      DuplicatesCases(w, p);
      OwnerBelow(kind, path, p);
      assert p in Duplicates(w) && OwnerOf(kind, path + p) == path;
    }
  }

  lemma PartsUp(kind: DocumentKind, path: Path, trees: set<Json>, flag: bool, segment: Segment, q: Path)
    requires Location(kind, path) && PartsReport(kind, path, trees, segment, q)
    ensures GroupReports(kind, path, trees, flag, q)
  {
    hide Location, OwnerOf, Duplicates, Repeats, Admits, Parts;
    if SomeRepeats(trees, segment) && q == path + [segment] {
      var w :| w in trees && RepeatsSegment(w, segment);
      DuplicatesCases(w, [segment]);
      OwnerBelow(kind, path, [segment]);
      SelfOwned(kind, path + [segment]);
      assert [segment] in Duplicates(w) && OwnerOf(kind, path + [segment]) == q;
    } else {
      var part, p :| part in Parts(trees, segment) && p in Duplicates(part) && OwnerOf(kind, path + [segment] + p) == q;
      var w, i := PartOf(trees, segment, part);
      var longer := [segment] + p;
      assert longer[1..] == p && path + longer == path + [segment] + p;
      assert InChild(w.entries, i, longer);
      DuplicatesCases(w, longer);
      assert longer in Duplicates(w) && OwnerOf(kind, path + longer) == q;
    }
  }

  /** What a group reports splits into what its location reports and what the groups of the parts report. */
  lemma GroupSplits(kind: DocumentKind, path: Path, trees: set<Json>, flag: bool, q: Path)
    requires Location(kind, path)
    ensures GroupReports(kind, path, trees, flag, q) <==>
      (q == path && (flag || Folds(kind, path, trees))) || exists segment :: PartsReport(kind, path, trees, segment, q)
  {
    hide Location, OwnerOf, Duplicates, PartsReport, Folds;
    if GroupReports(kind, path, trees, flag, q) && !(flag && q == path) {
      var w, p :| w in trees && p in Duplicates(w) && OwnerOf(kind, path + p) == q;
      var segment := SplitDown(kind, path, trees, q, w, p);
    }
    if q == path && Folds(kind, path, trees) { FoldsUp(kind, path, trees, flag); }
    if segment :| PartsReport(kind, path, trees, segment, q) { PartsUp(kind, path, trees, flag, segment, q); }
  }

  /** At a location that cannot be extended everything is folded. */
  lemma FullGroup(kind: DocumentKind, path: Path, trees: set<Json>, flag: bool, q: Path)
    requires Location(kind, path) && |path| == Capacity(kind)
    ensures GroupReports(kind, path, trees, flag, q) <==>
      q == path && (flag || exists w :: w in trees && Duplicates(w) != [])
  {
    hide Location, OwnerOf, Duplicates;
    forall p ensures OwnerOf(kind, path + p) == path { OwnerBelow(kind, path, p); }
    if w :| w in trees && Duplicates(w) != [] {
      assert Duplicates(w)[0] in Duplicates(w) && OwnerOf(kind, path + Duplicates(w)[0]) == path;
    }
  }
}
