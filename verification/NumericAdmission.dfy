/** Which locations own numbers that are not admissible integers (raw-numeric-admission.ts). */
module NumericAdmission {
  import opened Sequences
  import opened Paths
  import opened JsonTree
  import opened DuplicateNames
  import opened DocumentShape
  import Decimals

  datatype Reason = InvalidType | InvalidFormat

  /** Two bits, one for each reason. */
  datatype Mask = Mask(badType: bool, badFormat: bool)

  const NO_FAILURE := Mask(false, false)

  predicate Bit(mask: Mask, reason: Reason) {
    if reason == InvalidType then mask.badType else mask.badFormat
  }

  function Union(a: Mask, b: Mask): Mask {
    Mask(a.badType || b.badType, a.badFormat || b.badFormat)
  }

  function IntegerMask(verdict: Decimals.ExactInteger): Mask {
    match verdict
    case Admitted(_) => NO_FAILURE
    case InvalidType => Mask(true, false)
    case InvalidFormat => Mask(false, true)
  }

  // ---- failing numbers ----

  /** A number is no integer, or an integer that is not exact; an admitted one does not fail. */
  ghost predicate Fails(v: Json, reason: Reason) {
    match reason
    case InvalidType => v == Scalar(NumberToken(Decimals.InvalidType))
    case InvalidFormat => v == Scalar(NumberToken(Decimals.InvalidFormat))
  }

  lemma FailsByMask(v: Json, reason: Reason)
    requires v.Scalar?
    ensures Fails(v, reason) <==> v.token.NumberToken? && Bit(IntegerMask(v.token.verdict), reason)
  {
  }

  /** A number that fails for this reason stands at this path. */
  ghost predicate FailsAt(v: Json, path: Path, reason: Reason)
    decreases path
  {
    if path == [] then Fails(v, reason)
    else v.Container? && exists i :: 0 <= i < |v.entries| && EntryFailsAt(v.entries[i], i, path, reason)
  }

  ghost predicate EntryFailsAt(e: Entry, i: nat, path: Path, reason: Reason)
    requires path != []
    decreases path, 0
  {
    SegmentOf(e.tag, i) == path[0] && FailsAt(e.value, path[1..], reason)
  }

  ghost predicate SomeFailure(v: Json, reason: Reason) {
    exists path :: FailsAt(v, path, reason)
  }

  /** A failing number below this location is reported at q. */
  ghost predicate ReportedBelow(kind: DocumentKind, path: Path, v: Json, q: Path, reason: Reason) {
    exists p :: FailsAt(v, p, reason) && OwnerOf(kind, path + p) == q
  }

  /** A failing number of the document is reported at q. */
  ghost predicate Reported(kind: DocumentKind, root: Json, q: Path, reason: Reason) {
    exists p :: FailsAt(root, p, reason) && OwnerOf(kind, p) == q
  }

  /** What the i-th entry contributes to what is reported below a location. */
  ghost predicate EntryReports(kind: DocumentKind, path: Path, e: Entry, i: nat, q: Path, reason: Reason) {
    var segment := SegmentOf(e.tag, i);
    if Admits(kind, path, segment) then ReportedBelow(kind, path + [segment], e.value, q, reason)
    else q == path && SomeFailure(e.value, reason)
  }

  lemma FailsInside(v: Json, i: nat, p: Path, reason: Reason)
    requires v.Container? && i < |v.entries| && FailsAt(v.entries[i].value, p, reason)
    ensures FailsAt(v, [SegmentOf(v.entries[i].tag, i)] + p, reason)
  {
    var path := [SegmentOf(v.entries[i].tag, i)] + p;
    assert path[1..] == p;
    assert EntryFailsAt(v.entries[i], i, path, reason);
  }

  lemma EntryToContainer(kind: DocumentKind, path: Path, v: Json, i: nat, q: Path, reason: Reason)
    requires Location(kind, path)
    requires v.Container?
    requires i < |v.entries|
    requires EntryReports(kind, path, v.entries[i], i, q, reason)
    ensures ReportedBelow(kind, path, v, q, reason)
  {
    hide FailsAt, Location, OwnerOf, Admits;
    var e, segment := v.entries[i], SegmentOf(v.entries[i].tag, i);
    if Admits(kind, path, segment) {
      var p :| FailsAt(e.value, p, reason) && OwnerOf(kind, path + [segment] + p) == q;
      FailsInside(v, i, p, reason);
      assert path + [segment] + p == path + ([segment] + p);
    } else {
      var p :| FailsAt(e.value, p, reason);
      FailsInside(v, i, p, reason);
      OwnerBelow(kind, path, [segment] + p);
      assert OwnerOf(kind, path + ([segment] + p)) == q;
    }
  }

  lemma ContainerToEntry(kind: DocumentKind, path: Path, v: Json, q: Path, reason: Reason) returns (i: nat)
    requires Location(kind, path) && v.Container? && ReportedBelow(kind, path, v, q, reason)
    ensures i < |v.entries| && EntryReports(kind, path, v.entries[i], i, q, reason)
  {
    hide Location, OwnerOf, Admits;
    var p :| FailsAt(v, p, reason) && OwnerOf(kind, path + p) == q;
    i :| 0 <= i < |v.entries| && EntryFailsAt(v.entries[i], i, p, reason);
    var segment := SegmentOf(v.entries[i].tag, i);
    assert FailsAt(v.entries[i].value, p[1..], reason);
    OwnerBelow(kind, path, p);
    assert [segment] + p[1..] == p;
    assert path + [segment] + p[1..] == path + p;
  }

  /** A number is reported at the location itself. */
  lemma ScalarReports(kind: DocumentKind, path: Path, v: Json, q: Path, reason: Reason)
    requires Location(kind, path) && v.Scalar?
    ensures ReportedBelow(kind, path, v, q, reason) <==> q == path && Fails(v, reason)
  {
    hide Location, OwnerOf, FailsAt;
    OwnerBelow(kind, path, []);
    forall p ensures FailsAt(v, p, reason) <==> p == [] && Fails(v, reason) { ScalarFails(v, p, reason); }
    var here: Path := [];
    assert path + here == path;
    assert FailsAt(v, here, reason) <==> Fails(v, reason);
  }

  lemma ScalarFails(v: Json, p: Path, reason: Reason)
    requires v.Scalar?
    ensures FailsAt(v, p, reason) <==> p == [] && Fails(v, reason)
  {
  }

  /** At a location that cannot be extended, everything below is reported. */
  lemma FullReports(kind: DocumentKind, path: Path, v: Json, q: Path, reason: Reason)
    requires Location(kind, path) && |path| == Capacity(kind)
    ensures ReportedBelow(kind, path, v, q, reason) <==> q == path && SomeFailure(v, reason)
  {
    hide Location, OwnerOf, FailsAt;
    forall p ensures OwnerOf(kind, path + p) == path { OwnerBelow(kind, path, p); }
    if SomeFailure(v, reason) {
      var p :| FailsAt(v, p, reason);
      assert OwnerOf(kind, path + p) == path;
    }
  }

  /** Everything reported below a location is reported there or further down. */
  lemma ReportsBelow(kind: DocumentKind, path: Path, v: Json, q: Path, reason: Reason)
    requires Location(kind, path) && ReportedBelow(kind, path, v, q, reason)
    ensures path <= q
  {
    hide Location, OwnerOf, FailsAt;
    var p :| FailsAt(v, p, reason) && OwnerOf(kind, path + p) == q;
    OwnerBelow(kind, path, p);
  }

  // ---- folding a whole subtree ----

  ghost function MaskOf(v: Json): Mask
    decreases v, 0
  {
    match v
    case Scalar(t) => if t.NumberToken? then IntegerMask(t.verdict) else NO_FAILURE
    case Container(_, es, _) => RestMask(es, 0)
  }

  ghost function EntryMask(e: Entry): Mask
    decreases e, 0
  {
    MaskOf(e.value)
  }

  ghost function RestMask(es: seq<Entry>, next: nat): Mask
    requires next <= |es|
    decreases es, |es| - next + 1
  {
    if next == |es| then NO_FAILURE else Union(EntryMask(es[next]), RestMask(es, next + 1))
  }

  lemma {:induction false} MaskMeans(v: Json, reason: Reason)
    ensures Bit(MaskOf(v), reason) <==> SomeFailure(v, reason)
    decreases v, 0
  {
    if v.Container? {
      RestMaskMeans(v, v.entries, 0, reason);
      assert Bit(MaskOf(v), reason) ==> SomeFailure(v, reason) by {
        if Bit(MaskOf(v), reason) {
          var i :| 0 <= i < |v.entries| && SomeFailure(v.entries[i].value, reason);
          var p :| FailsAt(v.entries[i].value, p, reason);
          FailsInside(v, i, p, reason);
        }
      }
      if SomeFailure(v, reason) {
        var p :| FailsAt(v, p, reason);
        var i :| 0 <= i < |v.entries| && EntryFailsAt(v.entries[i], i, p, reason);
        assert FailsAt(v.entries[i].value, p[1..], reason);
      }
    } else {
      FailsByMask(v, reason);
      ScalarFails(v, [], reason);
      forall p ensures FailsAt(v, p, reason) <==> p == [] && Fails(v, reason) { ScalarFails(v, p, reason); }
    }
  }

  lemma {:induction false} EntryMaskMeans(e: Entry, reason: Reason)
    ensures Bit(EntryMask(e), reason) <==> SomeFailure(e.value, reason)
    decreases e, 0
  {
    MaskMeans(e.value, reason);
  }

  lemma {:induction false} RestMaskMeans(v: Json, es: seq<Entry>, next: nat, reason: Reason)
    requires next <= |es|
    ensures Bit(RestMask(es, next), reason) <==> exists i :: next <= i < |es| && SomeFailure(es[i].value, reason)
    decreases es, |es| - next + 1
  {
    hide SomeFailure, MaskOf;
    if next < |es| {
      EntryMaskMeans(es[next], reason);
      RestMaskMeans(v, es, next + 1, reason);
    }
  }

  datatype WalkFrame = WalkFrame(entries: seq<Entry>, next: nat)

  ghost function FramesMask(frames: seq<WalkFrame>): Mask
    requires InBounds(frames)
  {
    if frames == [] then NO_FAILURE
    else Union(FramesMask(frames[..|frames| - 1]), RestMask(frames[|frames| - 1].entries, frames[|frames| - 1].next))
  }

  ghost function RestSize(es: seq<Entry>, next: nat): nat
    requires next <= |es|
    decreases es, |es| - next + 1
  {
    if next == |es| then 0 else EntrySize(es[next]) + RestSize(es, next + 1)
  }

  ghost function EntrySize(e: Entry): nat
    decreases e, 0
  {
    Size(e.value)
  }

  ghost function Size(v: Json): nat
    decreases v, 0
  {
    if v.Scalar? then 1 else 1 + RestSize(v.entries, 0)
  }

  ghost function FramesSize(frames: seq<WalkFrame>): nat
    requires InBounds(frames)
  {
    if frames == [] then 0
    else FramesSize(frames[..|frames| - 1]) + RestSize(frames[|frames| - 1].entries, frames[|frames| - 1].next)
  }

  ghost predicate InBounds(frames: seq<WalkFrame>) {
    forall f :: f in frames ==> f.next <= |f.entries|
  }

  lemma PushFrame(frames: seq<WalkFrame>, f: WalkFrame)
    requires InBounds(frames) && f.next <= |f.entries|
    ensures InBounds(frames + [f]) && FramesMask(frames + [f]) == Union(FramesMask(frames), RestMask(f.entries, f.next))
    ensures FramesSize(frames + [f]) == FramesSize(frames) + RestSize(f.entries, f.next)
  {
    assert (frames + [f])[..|frames|] == frames;
  }

  lemma SplitFrames(frames: seq<WalkFrame>)
    requires InBounds(frames) && frames != []
    ensures var n := |frames| - 1;
      && InBounds(frames[..n]) && frames[n].next <= |frames[n].entries| && frames[..n] + [frames[n]] == frames
      && FramesMask(frames) == Union(FramesMask(frames[..n]), RestMask(frames[n].entries, frames[n].next))
      && FramesSize(frames) == FramesSize(frames[..n]) + RestSize(frames[n].entries, frames[n].next)
  {
    var n := |frames| - 1;
    assert frames[..n] + [frames[n]] == frames;
    assert forall f :: f in frames[..n] ==> f in frames;
    assert frames[n] in frames;
  }

  /** Folds every number below a value, keeping only the frames of open containers. */
  method StoppedMask(root: Json) returns (mask: Mask)
    ensures mask == MaskOf(root)
  {
    hide MaskOf, RestMask, FramesMask, FramesSize, RestSize, Size, EntrySize, EntryMask, InBounds;
    var frames: seq<WalkFrame> := [];
    var current := root;
    mask := NO_FAILURE;
    NoFrames();
    while true
      invariant InBounds(frames) && Union(mask, Union(MaskOf(current), FramesMask(frames))) == MaskOf(root)
      decreases Size(current) + FramesSize(frames)
    {
      ghost var before := Size(current) + FramesSize(frames);
      if current.Container? {
        EnterContainer(current);
        PushFrame(frames, WalkFrame(current.entries, 0));
        frames := frames + [WalkFrame(current.entries, 0)];
      } else {
        ScalarMask(current);
        if current.token.NumberToken? { mask := Union(mask, IntegerMask(current.token.verdict)); }
      }
      var found := false;
      while frames != [] && !found
        invariant InBounds(frames)
        invariant !found ==> Union(mask, FramesMask(frames)) == MaskOf(root) && FramesSize(frames) < before
        invariant found ==> Union(mask, Union(MaskOf(current), FramesMask(frames))) == MaskOf(root)
        invariant found ==> Size(current) + FramesSize(frames) < before
        decreases |frames|, !found
      {
        var n := |frames| - 1;
        SplitFrames(frames);
        var frame := frames[n];
        NextEntry(frame);
        if frame.next == |frame.entries| {
          frames := frames[..n];
        } else {
          current := frame.entries[frame.next].value;
          PushFrame(frames[..n], frame.(next := frame.next + 1));
          frames := frames[..n] + [frame.(next := frame.next + 1)];
          found := true;
        }
      }
      if !found { NoFrames(); return; }
    }
  }

  lemma NoFrames()
    ensures InBounds([]) && FramesMask([]) == NO_FAILURE && FramesSize([]) == 0
  {
  }

  lemma EnterContainer(v: Json)
    requires v.Container?
    ensures MaskOf(v) == RestMask(v.entries, 0) && Size(v) == 1 + RestSize(v.entries, 0)
  {
  }

  lemma ScalarMask(v: Json)
    requires v.Scalar?
    ensures MaskOf(v) == (if v.token.NumberToken? then IntegerMask(v.token.verdict) else NO_FAILURE) && Size(v) == 1
  {
  }

  lemma NextEntry(f: WalkFrame)
    requires f.next <= |f.entries|
    ensures f.next == |f.entries| ==> RestMask(f.entries, f.next) == NO_FAILURE && RestSize(f.entries, f.next) == 0
    ensures f.next < |f.entries| ==>
      RestMask(f.entries, f.next) == Union(MaskOf(f.entries[f.next].value), RestMask(f.entries, f.next + 1))
    ensures f.next < |f.entries| ==>
      RestSize(f.entries, f.next) == Size(f.entries[f.next].value) + RestSize(f.entries, f.next + 1)
  {
  }

  // ---- owners ----

  type Emission = (Path, Reason)

  /** The parts of a document without repeated names stand at different segments. */
  lemma DistinctSegments(v: Json, i: nat, j: nat)
    requires Whole(v) && DistinctNames(v) && v.Container? && i < j < |v.entries|
    ensures SegmentAt(v, i) != SegmentAt(v, j)
  {
    assert WholeEntries(v.record, v.entries);
    assert WholeEntry(v.record, v.entries[i]) && WholeEntry(v.record, v.entries[j]);
  }

  lemma PartsAre(v: Json, i: nat)
    requires Whole(v) && DistinctNames(v) && v.Container? && i < |v.entries|
    ensures Whole(v.entries[i].value) && DistinctNames(v.entries[i].value)
  {
    assert WholeEntries(v.record, v.entries);
    assert WholeEntry(v.record, v.entries[i]);
  }

  ghost predicate ChildReports(kind: DocumentKind, path: Path, v: Json, i: nat, q: Path, reason: Reason)
    requires v.Container? && i < |v.entries|
  {
    Admits(kind, path, SegmentAt(v, i)) && ReportedBelow(kind, path + [SegmentAt(v, i)], v.entries[i].value, q, reason)
  }

  ghost predicate ReportedByFirst(kind: DocumentKind, path: Path, v: Json, n: nat, q: Path, reason: Reason)
    requires v.Container? && n <= |v.entries|
  {
    exists i :: 0 <= i < n && ChildReports(kind, path, v, i, q, reason)
  }

  /** The reports of the first n parts that have locations of their own. */
  ghost predicate EmittedByFirst(kind: DocumentKind, path: Path, v: Json, n: nat, emitted: seq<Emission>)
    requires v.Container? && n <= |v.entries|
  {
    Distinct(emitted) && forall q, reason :: (q, reason) in emitted <==> ReportedByFirst(kind, path, v, n, q, reason)
  }

  ghost predicate Folded(kind: DocumentKind, path: Path, v: Json, i: nat, reason: Reason)
    requires v.Container? && i < |v.entries|
  {
    !Admits(kind, path, SegmentAt(v, i)) && SomeFailure(v.entries[i].value, reason)
  }

  /** The bits of the first n parts that belong to this location. */
  ghost predicate FoldedFirst(kind: DocumentKind, path: Path, v: Json, n: nat, mask: Mask)
    requires v.Container? && n <= |v.entries|
  {
    forall reason :: Bit(mask, reason) <==> exists i :: 0 <= i < n && Folded(kind, path, v, i, reason)
  }

  ghost predicate EmittedBelow(kind: DocumentKind, path: Path, v: Json, emitted: seq<Emission>) {
    Distinct(emitted) && forall q, reason :: (q, reason) in emitted <==> ReportedBelow(kind, path, v, q, reason)
  }

  ghost predicate EmittedStrictlyBelow(kind: DocumentKind, path: Path, v: Json, emitted: seq<Emission>) {
    Distinct(emitted)
      && forall q, reason :: (q, reason) in emitted <==> q != path && ReportedBelow(kind, path, v, q, reason)
  }

  ghost predicate OwnMask(kind: DocumentKind, path: Path, v: Json, mask: Mask) {
    forall reason :: Bit(mask, reason) <==> ReportedBelow(kind, path, v, path, reason)
  }

  lemma ChildPaths(kind: DocumentKind, path: Path, v: Json, i: nat, q: Path, reason: Reason)
    requires Location(kind, path) && v.Container? && i < |v.entries| && ChildReports(kind, path, v, i, q, reason)
    ensures |path| < |q| && q[|path|] == SegmentAt(v, i) && q != path
  {
    hide OwnerOf, FailsAt, ReportedBelow, Safe, CanName;
    OwnerBelow(kind, path, [SegmentAt(v, i)]);
    ReportsBelow(kind, path + [SegmentAt(v, i)], v.entries[i].value, q, reason);
  }

  lemma DistinctJoin(a: seq<Emission>, b: seq<Emission>)
    requires Distinct(a) && Distinct(b) && forall x :: x in a ==> x !in b
    ensures Distinct(a + b)
  {
    var c := a + b;
    forall i, j | 0 <= i < j < |c| ensures c[i] != c[j] {
      assert i < |a| ==> c[i] in a;
      assert j >= |a| ==> c[j] in b;
    }
  }

  /** One more part with a location of its own. */
  lemma EmitMore(kind: DocumentKind, path: Path, v: Json, n: nat, emitted: seq<Emission>, more: seq<Emission>)
    requires Location(kind, path) && Whole(v) && DistinctNames(v) && v.Container? && n < |v.entries|
    requires EmittedByFirst(kind, path, v, n, emitted) && Admits(kind, path, SegmentAt(v, n))
    requires EmittedBelow(kind, path + [SegmentAt(v, n)], v.entries[n].value, more)
    ensures EmittedByFirst(kind, path, v, n + 1, emitted + more)
  {
    hide Location, Admits, ReportedBelow, Whole, DistinctNames, SegmentAt, ChildReports;
    forall q, reason ensures (q, reason) in more <==> ChildReports(kind, path, v, n, q, reason) {
      ChildIs(kind, path, v, n, q, reason);
    }
    forall x | x in emitted ensures x !in more {
      var q, reason := x.0, x.1;
      assert x == (q, reason);
      var i :| 0 <= i < n && ChildReports(kind, path, v, i, q, reason);
      DistinctSegments(v, i, n);
      ChildPaths(kind, path, v, i, q, reason);
      if ChildReports(kind, path, v, n, q, reason) { ChildPaths(kind, path, v, n, q, reason); }
    }
    DistinctJoin(emitted, more);
    forall q, reason
      ensures ReportedByFirst(kind, path, v, n + 1, q, reason) <==>
        ReportedByFirst(kind, path, v, n, q, reason) || ChildReports(kind, path, v, n, q, reason) {
    }
  }

  lemma ChildIs(kind: DocumentKind, path: Path, v: Json, i: nat, q: Path, reason: Reason)
    requires v.Container? && i < |v.entries| && Admits(kind, path, SegmentAt(v, i))
    ensures ChildReports(kind, path, v, i, q, reason) <==>
      ReportedBelow(kind, path + [SegmentAt(v, i)], v.entries[i].value, q, reason)
  {
  }

  lemma EmitNoMore(kind: DocumentKind, path: Path, v: Json, n: nat, emitted: seq<Emission>)
    requires v.Container?
    requires n < |v.entries|
    requires EmittedByFirst(kind, path, v, n, emitted)
    requires !Admits(kind, path, SegmentAt(v, n))
    ensures EmittedByFirst(kind, path, v, n + 1, emitted)
  {
    hide Admits, ReportedBelow, SegmentAt;
    forall q, reason
      ensures ReportedByFirst(kind, path, v, n + 1, q, reason) <==> ReportedByFirst(kind, path, v, n, q, reason) {
    }
  }

  lemma FoldMore(kind: DocumentKind, path: Path, v: Json, n: nat, mask: Mask, more: Mask)
    requires v.Container?
    requires n < |v.entries|
    requires FoldedFirst(kind, path, v, n, mask)
    requires !Admits(kind, path, SegmentAt(v, n))
    requires more == MaskOf(v.entries[n].value)
    ensures FoldedFirst(kind, path, v, n + 1, Union(mask, more))
  {
    hide Admits, SomeFailure, SegmentAt, MaskOf;
    forall reason
      ensures Bit(Union(mask, more), reason) <==> exists i :: 0 <= i < n + 1 && Folded(kind, path, v, i, reason) {
      MaskMeans(v.entries[n].value, reason);
      assert Folded(kind, path, v, n, reason) <==> Bit(more, reason);
      assert Bit(Union(mask, more), reason) <==> Bit(mask, reason) || Bit(more, reason);
      if Bit(mask, reason) { var i :| 0 <= i < n && Folded(kind, path, v, i, reason); }
    }
  }

  lemma FoldNoMore(kind: DocumentKind, path: Path, v: Json, n: nat, mask: Mask)
    requires v.Container?
    requires n < |v.entries|
    requires FoldedFirst(kind, path, v, n, mask)
    requires Admits(kind, path, SegmentAt(v, n))
    ensures FoldedFirst(kind, path, v, n + 1, mask)
  {
    hide Admits, SomeFailure, SegmentAt;
  }

  /** Below the cap every item up to the last nameable index has its own location. */
  lemma {:induction false} FoldSkipped(kind: DocumentKind, path: Path, v: Json, n: nat)
    requires Whole(v) && v.Container? && !v.record && n <= |v.entries| && n <= LAST_INDEX + 1 && |path| < Capacity(kind)
    ensures FoldedFirst(kind, path, v, n, NO_FAILURE)
  {
    if n > 0 {
      FoldSkipped(kind, path, v, n - 1);
      assert WholeEntries(v.record, v.entries);
      assert WholeEntry(v.record, v.entries[n - 1]);
      AdmittedIndices(kind, path, n - 1);
      hide Admits, FoldedFirst, Whole;
      FoldNoMore(kind, path, v, n - 1, NO_FAILURE);
    }
  }

  lemma NothingYet(kind: DocumentKind, path: Path, v: Json)
    requires v.Container?
    ensures EmittedByFirst(kind, path, v, 0, []) && FoldedFirst(kind, path, v, 0, NO_FAILURE)
  {
  }

  /** All parts together are what the container reports. */
  lemma AllParts(kind: DocumentKind, path: Path, v: Json, q: Path, reason: Reason)
    requires Location(kind, path) && v.Container?
    ensures ReportedByFirst(kind, path, v, |v.entries|, q, reason) <==>
      q != path && ReportedBelow(kind, path, v, q, reason)
    ensures (exists i :: 0 <= i < |v.entries| && Folded(kind, path, v, i, reason)) <==>
      ReportedBelow(kind, path, v, path, reason)
  {
    hide Location, Admits, ReportedBelow, SomeFailure;
    if ReportedByFirst(kind, path, v, |v.entries|, q, reason) {
      var i :| 0 <= i < |v.entries| && ChildReports(kind, path, v, i, q, reason);
      ChildPaths(kind, path, v, i, q, reason);
      EntryToContainer(kind, path, v, i, q, reason);
    } else if q != path && ReportedBelow(kind, path, v, q, reason) {
      BelowPart(kind, path, v, q, reason);
    }
    if i :| 0 <= i < |v.entries| && Folded(kind, path, v, i, reason) {
      EntryToContainer(kind, path, v, i, path, reason);
    } else if ReportedBelow(kind, path, v, path, reason) {
      OwnPart(kind, path, v, reason);
    }
  }

  lemma BelowPart(kind: DocumentKind, path: Path, v: Json, q: Path, reason: Reason)
    requires Location(kind, path) && v.Container? && ReportedBelow(kind, path, v, q, reason) && q != path
    ensures ReportedByFirst(kind, path, v, |v.entries|, q, reason)
  {
    hide Location, Admits, ReportedBelow, SomeFailure;
    var i := ContainerToEntry(kind, path, v, q, reason);
    assert ChildReports(kind, path, v, i, q, reason);
  }

  lemma OwnPart(kind: DocumentKind, path: Path, v: Json, reason: Reason)
    requires Location(kind, path) && v.Container? && ReportedBelow(kind, path, v, path, reason)
    ensures exists i :: 0 <= i < |v.entries| && Folded(kind, path, v, i, reason)
  {
    hide Location, Admits, ReportedBelow, SomeFailure;
    var i := ContainerToEntry(kind, path, v, path, reason);
    if ChildReports(kind, path, v, i, path, reason) { ChildPaths(kind, path, v, i, path, reason); }
    assert Folded(kind, path, v, i, reason);
  }

  // ---- the visitor and the probe ----

  lemma ReportedIsBelow(kind: DocumentKind, root: Json, q: Path, reason: Reason)
    ensures Reported(kind, root, q, reason) <==> ReportedBelow(kind, [], root, q, reason)
  {
    hide OwnerOf, FailsAt;
    forall p: Path ensures [] + p == p { }
    if Reported(kind, root, q, reason) {
      var p :| FailsAt(root, p, reason) && OwnerOf(kind, p) == q;
      assert OwnerOf(kind, [] + p) == q;
    }
  }

  lemma AtCapacity(kind: DocumentKind, path: Path, v: Json, mask: Mask)
    requires Location(kind, path) && |path| == Capacity(kind) && mask == MaskOf(v)
    ensures OwnMask(kind, path, v, mask) && EmittedStrictlyBelow(kind, path, v, [])
  {
    hide Location, SomeFailure, ReportedBelow, MaskOf;
    forall reason ensures Bit(mask, reason) <==> ReportedBelow(kind, path, v, path, reason) {
      MaskMeans(v, reason);
      FullReports(kind, path, v, path, reason);
    }
    forall q, reason ensures ReportedBelow(kind, path, v, q, reason) ==> q == path {
      FullReports(kind, path, v, q, reason);
    }
  }

  lemma AtScalar(kind: DocumentKind, path: Path, v: Json, mask: Mask)
    requires Location(kind, path) && v.Scalar? && mask == MaskOf(v)
    ensures OwnMask(kind, path, v, mask) && EmittedStrictlyBelow(kind, path, v, [])
  {
    hide Location, ReportedBelow;
    forall q, reason ensures ReportedBelow(kind, path, v, q, reason) <==> q == path && Fails(v, reason) {
      ScalarReports(kind, path, v, q, reason);
      FailsByMask(v, reason);
    }
  }

  lemma AtContainer(kind: DocumentKind, path: Path, v: Json, mask: Mask, emitted: seq<Emission>)
    requires Location(kind, path) && v.Container? && FoldedFirst(kind, path, v, |v.entries|, mask)
    ensures OwnMask(kind, path, v, mask)
    ensures EmittedByFirst(kind, path, v, |v.entries|, emitted) ==> EmittedStrictlyBelow(kind, path, v, emitted)
  {
    hide Location, ReportedBelow, Folded, ReportedByFirst;
    forall reason ensures Bit(mask, reason) <==> ReportedBelow(kind, path, v, path, reason) {
      AllParts(kind, path, v, path, reason);
    }
    forall q, reason
      ensures ReportedByFirst(kind, path, v, |v.entries|, q, reason) <==>
        q != path && ReportedBelow(kind, path, v, q, reason) {
      AllParts(kind, path, v, q, reason);
    }
  }

  function EmitMask(path: Path, mask: Mask): seq<Emission> {
    (if mask.badType then [(path, InvalidType)] else []) + (if mask.badFormat then [(path, InvalidFormat)] else [])
  }

  lemma EmitOwn(kind: DocumentKind, path: Path, v: Json, emitted: seq<Emission>, mask: Mask)
    requires OwnMask(kind, path, v, mask) && EmittedStrictlyBelow(kind, path, v, emitted)
    ensures EmittedBelow(kind, path, v, emitted + EmitMask(path, mask))
  {
    hide ReportedBelow;
    var own := EmitMask(path, mask);
    forall q, reason ensures (q, reason) in own <==> q == path && Bit(mask, reason) {
      assert mask.badType ==> own[0] == (path, InvalidType);
      assert mask.badFormat ==> own[|own| - 1] == (path, InvalidFormat);
    }
    forall x | x in emitted ensures x !in own { assert x == (x.0, x.1); }
    DistinctJoin(emitted, own);
  }

  /**
   * Folds the numbers that belong to one location into its mask; a visit also emits, through their own
   * locations, all that lies further down.
   */
  method OwnerMask(kind: DocumentKind, v: Json, path: Path, visiting: bool) returns (mask: Mask, emitted: seq<Emission>)
    requires Whole(v) && DistinctNames(v) && Location(kind, path)
    ensures OwnMask(kind, path, v, mask)
    ensures if visiting then EmittedStrictlyBelow(kind, path, v, emitted) else emitted == []
    decreases v, 0
  {
    hide MaskOf, EmittedStrictlyBelow, EmittedBelow, EmittedByFirst, FoldedFirst, OwnMask, Safe, CanName, Project,
         Whole, DistinctNames;
    emitted := [];
    if |path| == Capacity(kind) {
      mask := StoppedMask(v);
      AtCapacity(kind, path, v, mask);
      return;
    }
    if v.Scalar? {
      ScalarMask(v);
      mask := if v.token.NumberToken? then IntegerMask(v.token.verdict) else NO_FAILURE;
      AtScalar(kind, path, v, mask);
      return;
    }
    mask := NO_FAILURE;
    NothingYet(kind, path, v);
    var i := 0;
    if !v.record && !visiting {
      i := Min(LAST_INDEX + 1, |v.entries|);
      FoldSkipped(kind, path, v, i);
    }
    while i < |v.entries|
      invariant 0 <= i <= |v.entries| && FoldedFirst(kind, path, v, i, mask)
      invariant if visiting then EmittedByFirst(kind, path, v, i, emitted) else emitted == []
    {
      var segment, child := SegmentAt(v, i), v.entries[i].value;
      PartsAre(v, i);
      ProjectOne(kind, path, segment);
      var next := SchemaSafeLocalPath(kind, path + [segment]);
      if |next| == |path| {
        var folded := StoppedMask(child);
        FoldMore(kind, path, v, i, mask, folded);
        if visiting { EmitNoMore(kind, path, v, i, emitted); }
        mask := Union(mask, folded);
      } else {
        FoldNoMore(kind, path, v, i, mask);
        if visiting {
          OwnerBelow(kind, path, [segment]);
          var more := VisitChild(kind, child, next);
          EmitMore(kind, path, v, i, emitted, more);
          emitted := emitted + more;
        }
      }
      i := i + 1;
    }
    AtContainer(kind, path, v, mask, emitted);
  }

  method VisitOwner(kind: DocumentKind, v: Json, path: Path) returns (emitted: seq<Emission>)
    requires Whole(v) && DistinctNames(v) && Location(kind, path)
    ensures EmittedBelow(kind, path, v, emitted)
    decreases v, 1
  {
    var mask;
    mask, emitted := OwnerMask(kind, v, path, true);
    EmitOwn(kind, path, v, emitted, mask);
    emitted := emitted + EmitMask(path, mask);
  }

  method VisitChild(kind: DocumentKind, v: Json, path: Path) returns (emitted: seq<Emission>)
    requires Whole(v) && DistinctNames(v) && Location(kind, path)
    ensures EmittedBelow(kind, path, v, emitted)
    decreases v, 2
  {
    if |path| == Capacity(kind) {
      var mask;
      mask, emitted := OwnerMask(kind, v, path, false);
      StoppedBelow(kind, path, v);
      EmitOwn(kind, path, v, [], mask);
      emitted := EmitMask(path, mask);
      assert [] + emitted == emitted;
    } else {
      emitted := VisitOwner(kind, v, path);
    }
  }

  lemma StoppedBelow(kind: DocumentKind, path: Path, v: Json)
    requires Location(kind, path) && |path| == Capacity(kind)
    ensures EmittedStrictlyBelow(kind, path, v, [])
  {
    AtCapacity(kind, path, v, MaskOf(v));
  }

  /** Emits every (location, reason) pair that owns a failing number, each once. */
  method VisitRawNumericFailures(kind: DocumentKind, root: Json) returns (failed: bool, emitted: seq<Emission>)
    requires Whole(root) && DistinctNames(root)
    ensures Distinct(emitted)
    ensures forall q, reason :: (q, reason) in emitted <==> Reported(kind, root, q, reason)
    ensures failed <==> exists reason :: SomeFailure(root, reason)
  {
    hide Reported, ReportedBelow, FailsAt;
    OwnersAreLocations(kind, []);
    emitted := VisitOwner(kind, root, []);
    forall q, reason ensures Reported(kind, root, q, reason) <==> ReportedBelow(kind, [], root, q, reason) {
      ReportedIsBelow(kind, root, q, reason);
    }
    failed := emitted != [];
    FailedIff(kind, root, emitted);
  }

  lemma FailedIff(kind: DocumentKind, root: Json, emitted: seq<Emission>)
    requires forall q, reason :: (q, reason) in emitted <==> Reported(kind, root, q, reason)
    ensures emitted != [] <==> exists reason :: SomeFailure(root, reason)
  {
    hide FailsAt, OwnerOf;
    if emitted != [] {
      var q, reason := emitted[0].0, emitted[0].1;
      assert (q, reason) == emitted[0] && (q, reason) in emitted;
      var p :| FailsAt(root, p, reason) && OwnerOf(kind, p) == q;
      assert SomeFailure(root, reason);
    } else {
      forall path, reason ensures !FailsAt(root, path, reason) {
        assert (OwnerOf(kind, path), reason) !in emitted;
        assert !Reported(kind, root, OwnerOf(kind, path), reason);
      }
    }
  }

  // ---- the probe of one location ----

  /** Which entry a segment leads to. */
  method Enter(v: Json, segment: Segment) returns (r: Option<nat>)
    requires Whole(v)
    ensures r.Some? ==> v.Container? && r.value < |v.entries| && SegmentAt(v, r.value) == segment
    ensures r.None? ==> v.Scalar? || forall i :: 0 <= i < |v.entries| ==> SegmentAt(v, i) != segment
  {
    Labelled(v);
    hide Whole;
    if v.Scalar? { return None; }
    if segment.Index? {
      return if !v.record && segment.index < |v.entries| then Some(segment.index) else None;
    }
    var i := 0;
    while i < |v.entries|
      invariant 0 <= i <= |v.entries|
      invariant forall k :: 0 <= k < i ==> SegmentAt(v, k) != segment
    {
      if SegmentAt(v, i) == segment { return Some(i); }
      i := i + 1;
    }
    r := None;
  }

  lemma Labelled(v: Json)
    requires Whole(v)
    ensures v.Container? ==> forall i :: 0 <= i < |v.entries| ==> (SegmentAt(v, i).Field? <==> v.record)
    ensures v.Container? && !v.record ==> forall i :: 0 <= i < |v.entries| ==> SegmentAt(v, i) == Index(i)
  {
    if v.Container? {
      assert WholeEntries(v.record, v.entries);
      assert forall i :: 0 <= i < |v.entries| ==> WholeEntry(v.record, v.entries[i]);
    }
  }

  /** What is reported at a location is reported from the part the location leads to. */
  lemma StepDown(kind: DocumentKind, path: Path, v: Json, q: Path, reason: Reason, r: Option<nat>)
    requires Location(kind, q) && |path| < |q| && path == q[..|path|] && Whole(v) && DistinctNames(v)
    requires r.Some? ==> v.Container? && r.value < |v.entries| && SegmentAt(v, r.value) == q[|path|]
    requires r.None? ==> v.Scalar? || forall i :: 0 <= i < |v.entries| ==> SegmentAt(v, i) != q[|path|]
    ensures Location(kind, path)
    ensures r.None? ==> !ReportedBelow(kind, path, v, q, reason)
    ensures q[..|path| + 1] == path + [q[|path|]]
    ensures r.Some? ==>
      (ReportedBelow(kind, path, v, q, reason) <==>
        ReportedBelow(kind, path + [q[|path|]], v.entries[r.value].value, q, reason))
  {
    hide Location, ReportedBelow, Whole, DistinctNames, Admits, Fails;
    LocationPrefix(kind, q, |path|);
    LocationPrefix(kind, q, |path| + 1);
    assert q[..|path| + 1] == path + [q[|path|]];
    AdmitsNext(kind, path, q[|path|]);
    if v.Scalar? {
      ScalarReports(kind, path, v, q, reason);
    } else {
      if r.Some? { StepInto(kind, path, v, q, reason, r.value); }
      if ReportedBelow(kind, path, v, q, reason) { StepFrom(kind, path, v, q, reason, r); }
    }
  }

  lemma AdmitsNext(kind: DocumentKind, path: Path, segment: Segment)
    requires Location(kind, path + [segment]) && Location(kind, path)
    ensures Admits(kind, path, segment)
  {
    SafeMore(kind, path, segment);
  }

  lemma LocationPrefix(kind: DocumentKind, q: Path, k: nat)
    requires Location(kind, q) && k <= |q|
    ensures Location(kind, q[..k])
  {
    hide CanName;
    forall i | 0 <= i < k ensures CanName(kind, q[..k][..i], q[..k][i]) { assert q[..k][..i] == q[..i]; }
  }

  lemma StepInto(kind: DocumentKind, path: Path, v: Json, q: Path, reason: Reason, i: nat)
    requires Location(kind, path) && |path| < |q| && Admits(kind, path, q[|path|])
    requires v.Container? && i < |v.entries| && SegmentAt(v, i) == q[|path|]
    ensures ReportedBelow(kind, path + [q[|path|]], v.entries[i].value, q, reason) ==>
      ReportedBelow(kind, path, v, q, reason)
  {
    hide Location, ReportedBelow, Admits;
    if ReportedBelow(kind, path + [q[|path|]], v.entries[i].value, q, reason) {
      EntryToContainer(kind, path, v, i, q, reason);
    }
  }

  lemma StepFrom(kind: DocumentKind, path: Path, v: Json, q: Path, reason: Reason, r: Option<nat>)
    requires Location(kind, path)
    requires v.Container?
    requires |path| < |q|
    requires ReportedBelow(kind, path, v, q, reason)
    requires Whole(v)
    requires DistinctNames(v)
    requires r.Some? ==> r.value < |v.entries| && SegmentAt(v, r.value) == q[|path|]
    requires r.None? ==> forall i :: 0 <= i < |v.entries| ==> SegmentAt(v, i) != q[|path|]
    ensures r.Some? && ReportedBelow(kind, path + [q[|path|]], v.entries[r.value].value, q, reason)
  {
    hide Location, ReportedBelow, Whole, DistinctNames, Admits;
    var i := ContainerToEntry(kind, path, v, q, reason);
    assert ChildReports(kind, path, v, i, q, reason);
    ChildPaths(kind, path, v, i, q, reason);
    if r.Some? && r.value < i { DistinctSegments(v, r.value, i); }
    if r.Some? && i < r.value { DistinctSegments(v, i, r.value); }
  }

  /** Only a location has anything reported at it. */
  lemma OnlyLocations(kind: DocumentKind, root: Json, q: Path, reason: Reason)
    requires Reported(kind, root, q, reason)
    ensures Location(kind, q)
  {
    hide FailsAt, Location, OwnerOf;
    var p :| FailsAt(root, p, reason) && OwnerOf(kind, p) == q;
    OwnersAreLocations(kind, p);
  }

  lemma ProjectionLength(kind: DocumentKind, q: Path)
    ensures |Project(kind, q)| == |q| <==> Safe(kind, q)
    ensures |Project(kind, q)| == |q| ==> Project(kind, q) == q
  {
    hide CanName, Project;
    ProjectIs(kind, q);
    assert q[..|q|] == q;
    if Safe(kind, q) {
      assert IsProjection(kind, q, q);
      ProjectionUnique(kind, q, q, Project(kind, q));
    }
  }

  /** The probe of a location has exactly the bits the visitor emits there. */
  method NumericFailureMask(kind: DocumentKind, root: Json, safeLocalPath: Path) returns (mask: Mask)
    requires Whole(root) && DistinctNames(root)
    ensures mask.badType <==> Reported(kind, root, safeLocalPath, InvalidType)
    ensures mask.badFormat <==> Reported(kind, root, safeLocalPath, InvalidFormat)
  {
    hide Reported, ReportedBelow, Whole, DistinctNames, Safe, CanName, Project;
    forall reason | Reported(kind, root, safeLocalPath, reason) ensures Location(kind, safeLocalPath) {
      OnlyLocations(kind, root, safeLocalPath, reason);
    }
    if |safeLocalPath| > Capacity(kind) { return NO_FAILURE; }
    var path := SchemaSafeLocalPath(kind, safeLocalPath);
    ProjectionLength(kind, safeLocalPath);
    if |path| != |safeLocalPath| { return NO_FAILURE; }
    var value := root;
    var i := 0;
    forall reason ensures Reported(kind, root, path, reason) <==> ReportedBelow(kind, path[..0], root, path, reason) {
      ReportedIsBelow(kind, root, path, reason);
      assert path[..0] == [];
    }
    while i < |path|
      invariant 0 <= i <= |path| && Whole(value) && DistinctNames(value)
      invariant forall reason ::
        Reported(kind, root, path, reason) <==> ReportedBelow(kind, path[..i], value, path, reason)
    {
      var entry := Enter(value, path[i]);
      forall reason ensures entry.None? ==> !ReportedBelow(kind, path[..i], value, path, reason)
        ensures entry.Some? ==> (ReportedBelow(kind, path[..i], value, path, reason) <==>
          ReportedBelow(kind, path[..i + 1], value.entries[entry.value].value, path, reason))
      {
        StepDown(kind, path[..i], value, path, reason, entry);
      }
      if entry.None? { return NO_FAILURE; }
      PartsAre(value, entry.value);
      value := value.entries[entry.value].value;
      i := i + 1;
    }
    assert path[..i] == path;
    var none;
    mask, none := OwnerMask(kind, value, path, false);
  }
}
