/** The budgeted preflight scan of a raw JSON document (raw-document.ts): a pushdown recogniser over tokens. */
module RawDocument {
  import opened Sequences
  import opened Paths
  import opened JsonTree
  import opened DuplicateNames

  datatype Budget = Budget(valuesRemaining: nat, stringBytesRemaining: nat)

  datatype Stop = JsonValueOccurrences | AggregateStringBytes | JsonDepth

  datatype RawDocumentScan = RawDocumentScan(decoded: bool, invalidJson: bool, duplicateKey: bool,
    stoppedBy: Option<Stop>,
                                             valueOccurrences: nat, stringBytes: nat, maximumDepth: nat)

  datatype ObjectState = FirstKey | NextKey | BeforeColon | BeforeValue | AfterMember
  datatype ArrayState = FirstValue | NextValue | AfterItem

  datatype Frame =
    | ObjectFrame(segment: Option<Segment>, keys: set<string>, state: ObjectState, key: string)
    | ArrayFrame(segment: Option<Segment>, position: ArrayState, nextIndex: nat)

  datatype FrameResult = Continue | Value | InvalidToken

  // ---- frames of a document ----

  ghost function ObjectStateOf(phase: Phase): ObjectState {
    match phase
    case First => FirstKey
    case Next => NextKey
    case AwaitColon(_) => BeforeColon
    case AwaitValue(_) => BeforeValue
    case After => AfterMember
    case Closed => AfterMember
  }

  ghost function ArrayStateOf(phase: Phase): ArrayState {
    if phase == First then FirstValue else if phase == Next then NextValue else AfterItem
  }

  ghost function PendingName(phase: Phase): string {
    if Pending(phase) && phase.key.Key? then phase.key.text else ""
  }

  ghost function PendingNames(phase: Phase): set<string> {
    if Pending(phase) then TagNames(phase.key) else {}
  }

  ghost function FrameOf(v: Json, at: Option<Segment>): Frame
    requires Open(v)
  {
    if v.record then
      ObjectFrame(at, Names(v.entries) + PendingNames(v.phase), ObjectStateOf(v.phase), PendingName(v.phase))
    else ArrayFrame(at, ArrayStateOf(v.phase), |v.entries|)
  }

  ghost function LastSegment(v: Json): Option<Segment>
    requires Open(v) && v.entries != []
  {
    Some(SegmentOf(v.entries[|v.entries| - 1].tag, |v.entries| - 1))
  }

  /** One frame for every open container, the outermost first. */
  ghost function Frames(v: Json, at: Option<Segment>): seq<Frame>
    decreases v
  {
    if !Open(v) then []
    else if Innermost(v) then [FrameOf(v, at)]
    else [FrameOf(v, at)] + Frames(v.entries[|v.entries| - 1].value, LastSegment(v))
  }

  ghost function FramesOf(doc: Document): seq<Frame> { if doc.Some? then Frames(doc.value, None) else [] }

  ghost function InnerSegment(v: Json, at: Option<Segment>): Option<Segment>
    requires Open(v)
    decreases v
  {
    if Innermost(v) then at else InnerSegment(v.entries[|v.entries| - 1].value, LastSegment(v))
  }

  lemma {:induction false} FramesTop(v: Json, at: Option<Segment>)
    requires Open(v)
    ensures |Frames(v, at)| == Nesting(v) > 0
    ensures Frames(v, at)[Nesting(v) - 1] == FrameOf(InnermostOf(v), InnerSegment(v, at))
    decreases v
  {
    hide FrameOf, LastSegment;
    if !Innermost(v) { FramesTop(v.entries[|v.entries| - 1].value, LastSegment(v)); }
  }

  lemma SameFrame(v: Json, w: Json, at: Option<Segment>)
    requires Open(v) && v.entries != []
    ensures Open(WithLast(v, w))
    ensures FrameOf(WithLast(v, w), at) == FrameOf(v, at)
    ensures LastSegment(WithLast(v, w)) == LastSegment(v)
  {
    hide Names;
    var n := |v.entries| - 1;
    assert v.entries[..n] + [v.entries[n]] == v.entries;
    PushNames(v.entries[..n], v.entries[n]);
    PushNames(v.entries[..n], v.entries[n].(value := w));
  }

  lemma BelowTop(v: Json, t: Token, at: Option<Segment>)
    requires Open(v) && !Innermost(v)
    ensures v.Container? && v.entries != []
    ensures var last := v.entries[|v.entries| - 1].value;
      && Open(last) && v.phase == After && InnermostOf(v) == InnermostOf(last)
      && InnerSegment(v, at) == InnerSegment(last, LastSegment(v))
      && Frames(v, at) == [FrameOf(v, at)] + Frames(last, LastSegment(v)) && Nesting(v) == 1 + Nesting(last)
      && (Extend(v, t).Some? <==> Extend(last, t).Some?)
      && (Extend(last, t).Some? ==> Extend(v, t).value == WithLast(v, Extend(last, t).value))
  {
  }

  lemma Peel<T>(f: T, rest: seq<T>, n: nat, tail: seq<T>)
    requires 0 < n <= |rest|
    ensures ([f] + rest)[..n] + tail == [f] + (rest[..n - 1] + tail)
  {
  }

  /** Reading a token changes nothing below the top of the stack. */
  lemma {:induction false} FramesExtend(v: Json, t: Token, at: Option<Segment>)
    requires Open(v) && Extend(v, t).Some? && Local(InnermostOf(v), t).Some?
    ensures |Frames(v, at)| == Nesting(v) > 0
    ensures Frames(Extend(v, t).value, at) ==
      Frames(v, at)[..Nesting(v) - 1] + Frames(Local(InnermostOf(v), t).value, InnerSegment(v, at))
    decreases v
  {
    FramesTop(v, at);
    if Innermost(v) {
      hide FrameOf, LastSegment, Local;
      assert Frames(v, at)[..0] == [];
    } else {
      FramesExtendBelow(v, t, at);
    }
  }

  lemma {:induction false} FramesExtendBelow(v: Json, t: Token, at: Option<Segment>)
    requires Open(v) && !Innermost(v) && Extend(v, t).Some? && Local(InnermostOf(v), t).Some?
    ensures |Frames(v, at)| == Nesting(v) > 0
    ensures Frames(Extend(v, t).value, at) ==
      Frames(v, at)[..Nesting(v) - 1] + Frames(Local(InnermostOf(v), t).value, InnerSegment(v, at))
    decreases v, 0
  {
    hide *;
    BelowTop(v, t, at);
    var last := v.entries[|v.entries| - 1].value;
    FramesExtend(last, t, LastSegment(v));
    FramesWithLast(v, Extend(last, t).value, at);
    Peel(FrameOf(v, at), Frames(last, LastSegment(v)), Nesting(last),
      Frames(Local(InnermostOf(v), t).value, InnerSegment(v, at)));
  }

  lemma FramesWithLast(v: Json, w: Json, at: Option<Segment>)
    requires Open(v) && v.phase == After && v.entries != []
    ensures Frames(WithLast(v, w), at) == [FrameOf(v, at)] + Frames(w, LastSegment(v))
  {
    SameFrame(v, w, at);
    hide FrameOf, LastSegment;
    assert WithLast(v, w).entries[|v.entries| - 1].value == w;
  }

  ghost function SegmentsOf(frames: seq<Frame>): Path {
    if frames == [] then []
    else SegmentsOf(frames[..|frames| - 1]) + OwnSegment(frames[|frames| - 1])
  }

  ghost function OwnSegment(f: Frame): Path { if f.segment.Some? then [f.segment.value] else [] }

  lemma SegmentsLast(frames: seq<Frame>, f: Frame)
    ensures SegmentsOf(frames + [f]) == SegmentsOf(frames) + OwnSegment(f)
  {
    assert (frames + [f])[..|frames|] == frames;
  }

  lemma {:induction false} SegmentsJoin(f: Frame, rest: seq<Frame>)
    ensures SegmentsOf([f] + rest) == OwnSegment(f) + SegmentsOf(rest)
    decreases |rest|
  {
    hide SegmentsOf, OwnSegment;
    SegmentsNone();
    if rest == [] {
      SegmentsLast([], f);
      assert [] + [f] == [f] + [];
    } else {
      var front, last := rest[..|rest| - 1], rest[|rest| - 1];
      SegmentsJoin(f, front);
      SegmentsLast(front, last);
      SegmentsLast([f] + front, last);
      assert front + [last] == rest && ([f] + front) + [last] == [f] + rest;
    }
  }

  lemma {:induction false} SegmentsAreHere(v: Json, at: Option<Segment>)
    requires Open(v)
    ensures SegmentsOf(Frames(v, at)) == (if at.Some? then [at.value] else []) + Here(v)
    decreases v
  {
    hide SegmentsOf;
    if Innermost(v) {
      SegmentsJoin(FrameOf(v, at), []);
      assert [FrameOf(v, at)] + [] == [FrameOf(v, at)];
      SegmentsNone();
    } else {
      var last := v.entries[|v.entries| - 1].value;
      SegmentsAreHere(last, LastSegment(v));
      SegmentsJoin(FrameOf(v, at), Frames(last, LastSegment(v)));
    }
  }

  lemma SegmentsNone()
    ensures SegmentsOf([]) == []
  {
  }

  // ---- one token on the stack ----

  ghost function Fresh(t: Token, at: Option<Segment>): seq<Frame> {
    if t == ObjectStart then [ObjectFrame(at, {}, FirstKey, "")]
    else if t == ArrayStart then [ArrayFrame(at, FirstValue, 0)]
    else []
  }

  /** The frame after a value has been committed to it. */
  function Committed(f: Frame): Frame {
    if f.ObjectFrame? then f.(key := "", state := AfterMember)
    else f.(nextIndex := f.nextIndex + 1, position := AfterItem)
  }

  function ChildSegment(f: Frame): Segment {
    if f.ObjectFrame? then Field(f.key) else Index(f.nextIndex)
  }

  lemma FreshFrames(t: Token, at: Option<Segment>)
    requires Start(t).Some?
    ensures Frames(Start(t).value, at) == Fresh(t, at)
  {
    assert Names([]) + PendingNames(First) == {};
  }

  lemma PlacedFrames(v: Json, t: Token, at: Option<Segment>)
    requires Open(v) && ValueExpected(v) && Start(t).Some? && PhaseFits(v.record, |v.entries|, v.phase)
    ensures Frames(Placed(v, Start(t).value), at) ==
      [Committed(FrameOf(v, at))] + Fresh(t, Some(ChildSegment(FrameOf(v, at))))
  {
    hide Names, Start, Fresh, Frames;
    var e := Entry(if v.record then v.phase.key else Position, Start(t).value);
    PushNames(v.entries, e);
    FreshFrames(t, Some(ChildSegment(FrameOf(v, at))));
    var w := Placed(v, Start(t).value);
    assert LastSegment(w) == Some(ChildSegment(FrameOf(v, at)));
    AfterFrames(w, at);
    assert FrameOf(w, at) == Committed(FrameOf(v, at));
  }

  lemma AfterFrames(w: Json, at: Option<Segment>)
    requires Open(w) && w.phase == After && w.entries != []
    ensures Frames(w, at) == [FrameOf(w, at)] + Frames(w.entries[|w.entries| - 1].value, LastSegment(w))
  {
  }

  /** The frame after a token that starts no value, or nothing when the token closes the container. */
  ghost function Moved(f: Frame, t: Token): seq<Frame> {
    match f
    case ObjectFrame(_, keys, state, _) =>
      if t == ObjectEnd then []
      else if t.StringToken? then [f.(keys := keys + {t.text}, key := t.text, state := BeforeColon)]
      else if t == Colon then [f.(state := BeforeValue)]
      else [f.(state := NextKey)]
    case ArrayFrame(_, _, _) => if t == ArrayEnd then [] else [f.(position := NextValue)]
  }

  lemma MovedFrames(v: Json, t: Token, w: Json, at: Option<Segment>)
    requires Open(v) && PhaseFits(v.record, |v.entries|, v.phase)
    requires !(ValueExpected(v) && Start(t).Some?) && Local(v, t) == Some(w)
    ensures Frames(w, at) == Moved(FrameOf(v, at), t)
  {
    hide Names;
    assert Names(v.entries) + {} == Names(v.entries);
  }

  /** Whether the top frame waits for a value. */
  predicate WaitsForValue(f: Frame) {
    if f.ObjectFrame? then f.state == BeforeValue else f.position == FirstValue || f.position == NextValue
  }

  /** Whether the top frame takes a token that starts no value. */
  predicate Takes(f: Frame, t: Token) {
    match f
    case ObjectFrame(_, _, state, _) =>
      (match state
       case FirstKey => t == ObjectEnd || t.StringToken?
       case NextKey => t.StringToken?
       case BeforeColon => t == Colon
       case BeforeValue => false
       case AfterMember => t == ObjectEnd || t == Comma)
    case ArrayFrame(_, position, _) =>
      (match position
       case FirstValue => t == ArrayEnd
       case NextValue => false
       case AfterItem => t == ArrayEnd || t == Comma)
  }

  lemma FrameDecides(v: Json, t: Token, at: Option<Segment>)
    requires Open(v) && PhaseFits(v.record, |v.entries|, v.phase)
    ensures WaitsForValue(FrameOf(v, at)) <==> ValueExpected(v)
    ensures Takes(FrameOf(v, at), t) <==> Local(v, t).Some? && !(ValueExpected(v) && Start(t).Some?)
    ensures Local(v, t).Some? <==> Takes(FrameOf(v, at), t) || (ValueExpected(v) && Start(t).Some?)
  {
    hide Names;
  }

  ghost function Top(doc: Document): Frame
    requires doc.Some? && Open(doc.value)
  {
    FrameOf(InnermostOf(doc.value), InnerSegment(doc.value, None))
  }

  /** The top frame decides what happens to the next token. */
  lemma TopDecides(v: Json, t: Token)
    requires Partial(v) && Open(v)
    ensures var u, f := InnermostOf(v), Top(Some(v));
      && PhaseFits(u.record, |u.entries|, u.phase)
      && (WaitsForValue(f) <==> ValueExpected(u))
      && (Takes(f, t) <==> Local(u, t).Some? && !(ValueExpected(u) && Start(t).Some?))
      && (Extend(v, t).Some? <==> Takes(f, t) || (WaitsForValue(f) && Start(t).Some?))
      && (Extend(v, t).Some? <==> Local(u, t).Some?)
  {
    var u, at := InnermostOf(v), InnerSegment(v, None);
    hide FrameOf, Frames, Partial, Local, ValueExpected, WaitsForValue, Takes, Start;
    InnermostPartial(v);
    PendingKeys(u);
    ExtendIsLocal(v, t);
    FrameDecides(u, t, at);
  }

  /** What one token does to the stack. */
  lemma FramesRead(doc: Document, t: Token)
    requires Sound(doc) && doc.Some? && Open(doc.value)
    ensures var fs := FramesOf(doc); |fs| == NestingOf(doc) > 0 && fs[|fs| - 1] == Top(doc)
    ensures Read(doc, t).Some? <==> Takes(Top(doc), t) || (WaitsForValue(Top(doc)) && Start(t).Some?)
    ensures StartsValue(doc, t) <==> WaitsForValue(Top(doc)) && Start(t).Some?
    ensures Takes(Top(doc), t) ==> FramesOf(Read(doc, t)) == FramesOf(doc)[..NestingOf(doc) - 1] + Moved(Top(doc), t)
    ensures StartsValue(doc, t) ==>
      FramesOf(Read(doc, t)) ==
        FramesOf(doc)[..NestingOf(doc) - 1] + [Committed(Top(doc))] + Fresh(t, Some(ChildSegment(Top(doc))))
  {
    hide FrameOf, Frames, Partial, Local, Extend, ValueExpected, WaitsForValue, Takes, Start, Moved, Fresh, Committed,
         ChildSegment, Nesting;
    var v, u, at := doc.value, InnermostOf(doc.value), InnerSegment(doc.value, None);
    TopDecides(v, t);
    FramesTop(v, None);
    if StartsValue(doc, t) {
      StackedValue(v, u, t, at);
    } else if Takes(Top(doc), t) {
      MovedFrames(u, t, Local(u, t).value, at);
      FramesExtend(v, t, None);
    }
  }

  lemma StackedValue(v: Json, u: Json, t: Token, at: Option<Segment>)
    requires Open(v) && u == InnermostOf(v) && at == InnerSegment(v, None) && Extend(v, t).Some? && Local(u, t).Some?
    requires ValueExpected(u) && Start(t).Some? && PhaseFits(u.record, |u.entries|, u.phase)
    ensures |Frames(v, None)| == Nesting(v) > 0
    ensures Frames(Extend(v, t).value, None) ==
      Frames(v, None)[..Nesting(v) - 1] + [Committed(FrameOf(u, at))] + Fresh(t, Some(ChildSegment(FrameOf(u, at))))
  {
    hide *;
    PlacedLocal(u, t);
    PlacedFrames(u, t, at);
    FramesExtend(v, t, None);
  }

  lemma ClosedFrames(doc: Document)
    ensures FramesOf(doc) == [] <==> doc.None? || !Open(doc.value)
  {
  }

  lemma FramesFirst(t: Token)
    ensures Start(t).Some? ==> FramesOf(Start(t)) == Fresh(t, None)
  {
    if Start(t).Some? { FreshFrames(t, None); }
  }

  // ---- reported names ----

  ghost function DuplicatesSoFar(doc: Document): seq<Path> { if doc.Some? then Duplicates(doc.value) else [] }

  /** A name is reported exactly when its frame has it already, at the path of the frame. */
  lemma DuplicatesRead(doc: Document, t: Token)
    requires Sound(doc) && Read(doc, t).Some?
    ensures StartsValue(doc, t) || !t.StringToken? ==> DuplicatesSoFar(Read(doc, t)) == DuplicatesSoFar(doc)
    ensures doc.Some? ==> Open(doc.value)
    ensures doc.Some? && Takes(Top(doc), t) && t.StringToken? && Top(doc).ObjectFrame? ==>
      DuplicatesSoFar(Read(doc, t)) == DuplicatesSoFar(doc)
        + if t.text in Top(doc).keys then [SegmentsOf(FramesOf(doc)) + [Field(t.text)]] else []
  {
    hide Partial, Start, Duplicates, Names, Frames, SegmentsOf;
    if doc.None? {
      StartDuplicates(t);
    } else {
      ExtendOpen(doc.value, t);
      ExtendDuplicates(doc.value, t);
      DiscoveredPath(doc.value, t);
      SegmentsAreHere(doc.value, None);
      assert [] + Here(doc.value) == Here(doc.value);
      assert DuplicatesSoFar(doc) + [] == DuplicatesSoFar(doc);
    }
  }

  // ---- the state of the scan ----

  ghost predicate Fits(doc: Document, budget: Budget) {
    ValuesSoFar(doc) <= budget.valuesRemaining && BytesSoFar(doc) <= budget.stringBytesRemaining
      && DepthSoFar(doc) <= JSON_DEPTH
  }

  /** What is exceeded, in the order of the checks. */
  ghost function Exceeded(doc: Document, budget: Budget): Stop {
    if ValuesSoFar(doc) > budget.valuesRemaining then JsonValueOccurrences
    else if BytesSoFar(doc) > budget.stringBytesRemaining then AggregateStringBytes
    else JsonDepth
  }

  lemma NestingBounded(doc: Document)
    ensures NestingOf(doc) <= DepthSoFar(doc)
  {
    if doc.Some? { NestingWithin(doc.value); }
  }

  /** Everything a token that starts no value changes. */
  lemma TakenFacts(doc: Document, t: Token)
    requires Sound(doc) && doc.Some? && Open(doc.value) && Takes(Top(doc), t)
    ensures |FramesOf(doc)| == NestingOf(doc) > 0
    ensures Read(doc, t).Some? && Sound(Read(doc, t)) && !StartsValue(doc, t)
    ensures ValuesSoFar(Read(doc, t)) == ValuesSoFar(doc) && DepthSoFar(Read(doc, t)) == DepthSoFar(doc)
    ensures BytesSoFar(Read(doc, t)) == BytesSoFar(doc) + TokenBytes(t)
    ensures FramesOf(Read(doc, t)) == FramesOf(doc)[..NestingOf(doc) - 1] + Moved(Top(doc), t)
    ensures DuplicatesSoFar(Read(doc, t)) == DuplicatesSoFar(doc) +
      if t.StringToken? && Top(doc).ObjectFrame? && t.text in Top(doc).keys then
        [SegmentsOf(FramesOf(doc)) + [Field(t.text)]]
      else []
  {
    hide *;
    FramesRead(doc, t);
    TakesNoValue(Top(doc), t);
    ReadSpells(doc, t);
    ReadCosts(doc, t);
    DuplicatesRead(doc, t);
  }

  lemma TakesNoValue(f: Frame, t: Token)
    requires Takes(f, t)
    ensures !(WaitsForValue(f) && Start(t).Some?)
    ensures f.ArrayFrame? ==> !t.StringToken?
  {
  }

  /** Everything a token that starts a value inside a container changes. */
  lemma ValueFacts(doc: Document, t: Token)
    requires Sound(doc) && StartsValue(doc, t)
    ensures Read(doc, t).Some? && Sound(Read(doc, t))
    ensures ValuesSoFar(Read(doc, t)) == ValuesSoFar(doc) + 1
    ensures BytesSoFar(Read(doc, t)) == BytesSoFar(doc) + TokenBytes(t)
    ensures DepthSoFar(Read(doc, t)) == if Opens(t) then Max(DepthSoFar(doc), NestingOf(doc) + 1) else DepthSoFar(doc)
    ensures DuplicatesSoFar(Read(doc, t)) == DuplicatesSoFar(doc)
    ensures |FramesOf(doc)| == NestingOf(doc)
    ensures NestingOf(doc) > 0 <==> doc.Some?
    ensures FramesOf(Read(doc, t)) ==
      if doc.Some? then
        FramesOf(doc)[..NestingOf(doc) - 1] + [Committed(Top(doc))] + Fresh(t, Some(ChildSegment(Top(doc))))
      else Fresh(t, None)
    ensures doc.Some? ==> FramesOf(doc)[NestingOf(doc) - 1] == Top(doc)
  {
    ValueRead(doc, t);
    hide *;
    if doc.Some? { FramesRead(doc, t); } else { FramesFirst(t); }
    ReadSpells(doc, t);
    ReadCosts(doc, t);
    DuplicatesRead(doc, t);
  }

  lemma ValueRead(doc: Document, t: Token)
    requires Sound(doc) && StartsValue(doc, t)
    ensures Start(t).Some? && Read(doc, t).Some?
    ensures doc.Some? ==> Open(doc.value)
    ensures doc.None? ==> FramesOf(doc) == [] && NestingOf(doc) == 0 && Read(doc, t) == Start(t)
  {
    if doc.Some? {
      ExtendIsLocal(doc.value, t);
      PlacedLocal(InnermostOf(doc.value), t);
    }
  }

  /** The path reported for a container that is too deep is the path at which it would have been. */
  lemma TooDeepPath(doc: Document, t: Token)
    requires Sound(doc) && doc.Some? && StartsValue(doc, t) && Opens(t)
    ensures Read(doc, t).Some? && Open(Read(doc, t).value)
    ensures SegmentsOf(FramesOf(doc)) + [ChildSegment(Top(doc))] == Here(Read(doc, t).value)
    ensures |Here(Read(doc, t).value)| == NestingOf(doc)
  {
    hide FrameOf, StartsValue, Read, SegmentsOf, Frames, Here, Extend, Start, Sound, Innermost, Nesting, ChildSegment,
         Committed, Top;
    ValueFacts(doc, t);
    var fs, w := FramesOf(doc), Read(doc, t);
    var pre, top := fs[..|fs| - 1], fs[|fs| - 1];
    assert fs == pre + [top];
    SegmentsLast(pre, top);
    SegmentsLast(pre, Committed(top));
    CommittedSegment(top);
    var pushed := Fresh(t, Some(ChildSegment(top)))[0];
    assert Fresh(t, Some(ChildSegment(top))) == [pushed];
    SegmentsLast(pre + [Committed(top)], pushed);
    ClosedFrames(w);
    SegmentsAreHere(w.value, None);
    assert [] + Here(w.value) == Here(w.value);
    HereLength(w.value);
    FramesTop(w.value, None);
  }

  lemma CommittedSegment(f: Frame)
    ensures OwnSegment(Committed(f)) == OwnSegment(f)
  {
  }

  lemma {:induction false} HereLength(v: Json)
    requires Open(v)
    ensures |Here(v)| + 1 == Nesting(v)
    decreases v
  {
    if !Innermost(v) { HereLength(v.entries[|v.entries| - 1].value); }
  }

  method DuplicatePath(frames: seq<Frame>, key: Segment) returns (path: Path)
    ensures path == SegmentsOf(frames) + [key]
  {
    path := [];
    var i := 0;
    while i < |frames|
      invariant 0 <= i <= |frames| && path == SegmentsOf(frames[..i])
    {
      assert frames[..i + 1][..i] == frames[..i];
      if frames[i].segment.Some? { path := path + [frames[i].segment.value]; }
      i := i + 1;
    }
    assert frames[..i] == frames;
    path := path + [key];
  }

  /** The path of the container that was opened last, too deep by one. */
  ghost predicate LimitPath(doc: Document, path: Path) {
    doc.Some? && Open(doc.value) && path == Here(doc.value) && |path| == JSON_DEPTH
  }

  class ScanState {
    var frames: seq<Frame>
    var rootSeen: bool
    var invalidJson: bool
    var duplicateKey: bool
    var stoppedBy: Option<Stop>
    var valueOccurrences: nat
    var stringBytes: nat
    var maximumDepth: nat
    var reported: seq<Path>
    var depthLimit: Option<Path>

    ghost predicate Stacked(doc: Document)
      reads this`frames, this`rootSeen
    {
      frames == FramesOf(doc) && rootSeen == doc.Some?
    }

    ghost predicate Told(doc: Document)
      reads this`reported, this`duplicateKey
    {
      reported == DuplicatesSoFar(doc) && duplicateKey == (reported != [])
    }

    ghost predicate Running()
      reads this`invalidJson, this`stoppedBy, this`depthLimit
    {
      !invalidJson && stoppedBy == None && depthLimit == None
    }

    /** The state of a scan that has committed this document. */
    ghost predicate Shows(doc: Document, budget: Budget)
      reads this
    {
      && Sound(doc) && Fits(doc, budget) && Stacked(doc) && Told(doc) && Running()
      && valueOccurrences == ValuesSoFar(doc) && stringBytes == BytesSoFar(doc) && maximumDepth == DepthSoFar(doc)
    }

    /** The state of a scan stopped by the token after this document. */
    ghost predicate StoppedAfter(doc: Document, t: Token, budget: Budget)
      reads this
    {
      && Sound(doc) && Fits(doc, budget) && Told(doc) && Read(doc, t).Some? && !invalidJson
      && !Fits(Read(doc, t), budget)
      && stoppedBy == Some(Exceeded(Read(doc, t), budget))
      && valueOccurrences == ValuesSoFar(Read(doc, t))
      && stringBytes == (if stoppedBy == Some(JsonValueOccurrences) then BytesSoFar(doc)
                         else Min(budget.stringBytesRemaining + 1, BytesSoFar(Read(doc, t))))
      && maximumDepth == (if stoppedBy == Some(JsonDepth) then DepthSoFar(Read(doc, t)) else DepthSoFar(doc))
      && (depthLimit.Some? <==> stoppedBy == Some(JsonDepth))
      && (depthLimit.Some? ==> LimitPath(Read(doc, t), depthLimit.value))
    }

    constructor (budget: Budget)
      ensures Shows(None, budget)
    {
      frames, rootSeen, invalidJson, duplicateKey, stoppedBy := [], false, false, false, None;
      valueOccurrences, stringBytes, maximumDepth, reported, depthLimit := 0, 0, 0, [], None;
    }

    method ChargeString(bytes: nat, budget: Budget) returns (ok: bool)
      requires stringBytes <= budget.stringBytesRemaining
      modifies this`stringBytes, this`stoppedBy
      ensures stringBytes == Min(budget.stringBytesRemaining + 1, old(stringBytes) + bytes)
      ensures ok <==> old(stringBytes) + bytes <= budget.stringBytesRemaining
      ensures stoppedBy == if ok then old(stoppedBy) else Some(AggregateStringBytes)
    {
      stringBytes := Min(budget.stringBytesRemaining + 1, stringBytes + bytes);
      if stringBytes <= budget.stringBytesRemaining { return true; }
      stoppedBy := Some(AggregateStringBytes);
      return false;
    }

    /** What the frame did with a token: took it, stopped on it, left it to be a value, or refused it. */
    ghost predicate Handled(doc: Document, t: Token, budget: Budget, handled: FrameResult)
      reads this
    {
      match handled
      case InvalidToken => Shows(doc, budget) && Read(doc, t).None?
      case Value =>
        Shows(doc, budget) && (Read(doc, t).Some? <==> Start(t).Some?) && (Start(t).Some? ==> StartsValue(doc, t))
      case Continue =>
        Read(doc, t).Some? && if stoppedBy.None? then Shows(Read(doc, t), budget) else StoppedAfter(doc, t, budget)
    }

    /** A member's name: charged, and reported when its object has it already. */
    method TakeKey(current: Token, budget: Budget, ghost doc: Document)
      requires Shows(doc, budget) && frames != [] && frames[|frames| - 1].ObjectFrame? && doc.Some? && Open(doc.value)
      requires current.StringToken? && (frames[|frames| - 1].state == FirstKey || frames[|frames| - 1].state == NextKey)
      modifies this
      ensures Handled(doc, current, budget, Continue)
    {
      hide Read, Fits, FramesOf, DuplicatesSoFar, StartsValue, Start, Sound, ValuesSoFar, BytesSoFar, DepthSoFar, Top,
           NestingOf, SegmentsOf;
      FramesRead(doc, current);
      TakenFacts(doc, current);
      FitsCounts(doc, Read(doc, current), budget);
      var n := |frames| - 1;
      var frame := frames[n];
      var charged := ChargeString(current.bytes, budget);
      if !charged { return; }
      var key, keys := current.text, frame.keys;
      if key in keys {
        duplicateKey := true;
        var path := DuplicatePath(frames, Field(key));
        reported := reported + [path];
      } else {
        keys := keys + {key};
      }
      assert keys == frame.keys + {key};
      frames := frames[..n] + [frame.(keys := keys, key := key, state := BeforeColon)];
    }

    method HandleObjectFrame(current: Token, budget: Budget, ghost doc: Document) returns (handled: FrameResult)
      requires Shows(doc, budget) && frames != [] && frames[|frames| - 1].ObjectFrame? && doc.Some? && Open(doc.value)
      modifies this
      ensures Handled(doc, current, budget, handled)
    {
      hide Read, Fits, FramesOf, DuplicatesSoFar, StartsValue, Start, Sound, ValuesSoFar, BytesSoFar, DepthSoFar, Top,
           NestingOf, SegmentsOf;
      FramesRead(doc, current);
      if Takes(Top(doc), current) { TakenFacts(doc, current); FitsCounts(doc, Read(doc, current), budget); }
      var n := |frames| - 1;
      var frame := frames[n];
      if frame.state == FirstKey || frame.state == NextKey {
        if frame.state == FirstKey && current == ObjectEnd {
          frames := frames[..n];
          return Continue;
        }
        if !current.StringToken? { return InvalidToken; }
        TakeKey(current, budget, doc);
        return Continue;
      }
      if frame.state == BeforeColon {
        if current != Colon { return InvalidToken; }
        frames := frames[..n] + [frame.(state := BeforeValue)];
        return Continue;
      }
      if frame.state == AfterMember {
        if current == ObjectEnd { frames := frames[..n]; }
        else if current == Comma { frames := frames[..n] + [frame.(state := NextKey)]; }
        else { return InvalidToken; }
        return Continue;
      }
      return Value;
    }

    method HandleArrayFrame(current: Token, budget: Budget, ghost doc: Document) returns (handled: FrameResult)
      requires Shows(doc, budget) && frames != [] && frames[|frames| - 1].ArrayFrame? && doc.Some? && Open(doc.value)
      modifies this
      ensures Handled(doc, current, budget, handled)
    {
      hide Read, Fits, FramesOf, DuplicatesSoFar, StartsValue, Start, Sound, ValuesSoFar, BytesSoFar, DepthSoFar, Top,
           NestingOf, SegmentsOf;
      FramesRead(doc, current);
      if Takes(Top(doc), current) { TakenFacts(doc, current); FitsCounts(doc, Read(doc, current), budget); }
      var n := |frames| - 1;
      var frame := frames[n];
      if frame.position == FirstValue && current == ArrayEnd {
        frames := frames[..n];
        return Continue;
      }
      if frame.position == AfterItem {
        if current == ArrayEnd { frames := frames[..n]; }
        else if current == Comma { frames := frames[..n] + [frame.(position := NextValue)]; }
        else { return InvalidToken; }
        return Continue;
      }
      return Value;
    }

    method HandleFrameToken(current: Token, budget: Budget, ghost doc: Document) returns (handled: FrameResult)
      requires Shows(doc, budget)
      modifies this
      ensures Handled(doc, current, budget, handled)
    {
      ClosedFrames(doc);
      if frames != [] {
        if frames[|frames| - 1].ObjectFrame? {
          handled := HandleObjectFrame(current, budget, doc);
        } else {
          handled := HandleArrayFrame(current, budget, doc);
        }
      } else if rootSeen {
        return InvalidToken;
      } else {
        return Value;
      }
    }

    method ChargeValue(current: Token, budget: Budget, ghost doc: Document) returns (ok: bool)
      requires Shows(doc, budget) && StartsValue(doc, current)
      modifies this
      ensures Read(doc, current).Some? && frames == old(frames) && rootSeen == old(rootSeen)
      ensures ok ==> Fits(Read(doc, current), budget) && Told(Read(doc, current)) && Running()
      ensures ok ==>
        valueOccurrences == ValuesSoFar(Read(doc, current)) && stringBytes == BytesSoFar(Read(doc, current))
          && maximumDepth == DepthSoFar(Read(doc, current))
      ensures !ok ==> StoppedAfter(doc, current, budget)
    {
      hide Read, Fits, FramesOf, DuplicatesSoFar, StartsValue, Start, Sound, ValuesSoFar, BytesSoFar, DepthSoFar, Top,
           NestingOf, SegmentsOf;
      ValueFacts(doc, current);
      FitsCounts(doc, Read(doc, current), budget);
      NestingBounded(doc);
      valueOccurrences := Min(budget.valuesRemaining + 1, valueOccurrences + 1);
      if valueOccurrences > budget.valuesRemaining {
        stoppedBy := Some(JsonValueOccurrences);
        return false;
      }
      if current.StringToken? {
        var charged := ChargeString(current.bytes, budget);
        if !charged { return false; }
      }
      if !Opens(current) { return true; }
      var depth := |frames| + 1;
      maximumDepth := Max(maximumDepth, depth);
      if depth <= JSON_DEPTH { return true; }
      stoppedBy := Some(JsonDepth);
      var frame := frames[|frames| - 1];
      var path := DuplicatePath(frames, ChildSegment(frame));
      depthLimit := Some(path);
      TooDeepPath(doc, current);
      return false;
    }

    method CommitValue(current: Token, ghost doc: Document)
      requires Sound(doc) && Stacked(doc) && StartsValue(doc, current)
      modifies this`frames, this`rootSeen
      ensures Read(doc, current).Some? && Stacked(Read(doc, current))
    {
      hide Read, FramesOf, StartsValue, Start, Sound, Top, NestingOf;
      ValueFacts(doc, current);
      var segment := None;
      if frames != [] {
        var n := |frames| - 1;
        segment := Some(ChildSegment(frames[n]));
        frames := frames[..n] + [Committed(frames[n])];
      } else {
        rootSeen := true;
      }
      if current == ObjectStart {
        frames := frames + [ObjectFrame(segment, {}, FirstKey, "")];
      } else if current == ArrayStart {
        frames := frames + [ArrayFrame(segment, FirstValue, 0)];
      }
    }

    /** Whether the scan goes on after this token, and what it shows then. */
    ghost predicate Advanced(doc: Document, t: Token, budget: Budget, more: bool)
      reads this
    {
      if more then Read(doc, t).Some? && Shows(Read(doc, t), budget)
      else if invalidJson then Read(doc, t).None? && Refusing(doc, budget)
      else StoppedAfter(doc, t, budget)
    }

    /** The state of a scan that refuses the token after this document. */
    ghost predicate Refusing(doc: Document, budget: Budget)
      reads this
    {
      && Sound(doc) && Fits(doc, budget) && Told(doc) && stoppedBy == None && depthLimit == None
      && valueOccurrences == ValuesSoFar(doc) && stringBytes == BytesSoFar(doc) && maximumDepth == DepthSoFar(doc)
    }

    /** One pass of the scan loop over a token of the document. */
    method Advance(current: Token, budget: Budget, ghost doc: Document) returns (more: bool)
      requires Shows(doc, budget)
      modifies this
      ensures Advanced(doc, current, budget, more)
    {
      hide Read, Fits, FramesOf, DuplicatesSoFar, StartsValue, Start, Sound, ValuesSoFar, BytesSoFar, DepthSoFar,
           LimitPath, Exceeded, Told;
      if current == Invalid {
        invalidJson := true;
        NothingReads(doc);
        return false;
      }
      var handled := HandleFrameToken(current, budget, doc);
      if handled == Continue { return stoppedBy.None?; }
      if handled == InvalidToken {
        invalidJson := true;
        return false;
      }
      if Start(current).None? {
        invalidJson := true;
        return false;
      }
      var charged := ChargeValue(current, budget, doc);
      if !charged { return false; }
      CommitValue(current, doc);
      ReadSound(doc, current);
      return true;
    }
  }

  lemma ReadSound(doc: Document, t: Token)
    requires Sound(doc) && Read(doc, t).Some?
    ensures Sound(Read(doc, t))
  {
    ReadSpells(doc, t);
  }

  lemma FitsCounts(doc: Document, w: Document, budget: Budget)
    requires Fits(doc, budget)
    ensures ValuesSoFar(doc) <= budget.valuesRemaining
    ensures BytesSoFar(doc) <= budget.stringBytesRemaining
    ensures DepthSoFar(doc) <= JSON_DEPTH
    ensures Fits(w, budget) <==>
      ValuesSoFar(w) <= budget.valuesRemaining && BytesSoFar(w) <= budget.stringBytesRemaining
        && DepthSoFar(w) <= JSON_DEPTH
  {
  }

  // ---- the whole scan ----

  ghost predicate IsPrefixDocument(tokens: seq<Token>, k: nat, doc: Document) {
    k <= |tokens| && Sound(doc) && Spelled(doc) == tokens[..k]
  }

  /** The tokens are one finished JSON text. */
  ghost predicate IsText(tokens: seq<Token>, v: Json) {
    Whole(v) && Spell(v) == tokens
  }

  /** The first k tokens start some JSON text as far as the grammar can tell. */
  ghost predicate Viable(tokens: seq<Token>, k: nat) {
    exists doc :: IsPrefixDocument(tokens, k, doc)
  }

  ghost predicate WithinBudget(v: Json, budget: Budget) {
    Values(v) <= budget.valuesRemaining && TextBytes(v) <= budget.stringBytesRemaining && Depth(v) <= JSON_DEPTH
  }

  ghost predicate Admissible(tokens: seq<Token>, v: Json, budget: Budget) {
    IsText(tokens, v) && DistinctNames(v) && WithinBudget(v, budget)
  }

  lemma Unique(tokens: seq<Token>, k: nat, a: Document, b: Document)
    requires IsPrefixDocument(tokens, k, a) && IsPrefixDocument(tokens, k, b)
    ensures a == b
  {
    SpelledInjective(a, b);
  }

  lemma NextDocument(tokens: seq<Token>, k: nat, doc: Document)
    requires IsPrefixDocument(tokens, k, doc) && k < |tokens| && Read(doc, tokens[k]).Some?
    ensures IsPrefixDocument(tokens, k + 1, Read(doc, tokens[k]))
  {
    ReadSpells(doc, tokens[k]);
    assert tokens[..k + 1] == tokens[..k] + [tokens[k]];
  }

  /** A token that cannot be read makes the prefix hopeless. */
  lemma Refused(tokens: seq<Token>, k: nat, doc: Document)
    requires IsPrefixDocument(tokens, k, doc) && k < |tokens| && Read(doc, tokens[k]).None?
    ensures !Viable(tokens, k + 1)
  {
    if Viable(tokens, k + 1) {
      var w :| IsPrefixDocument(tokens, k + 1, w);
      assert tokens[..k + 1] == tokens[..k] + [tokens[k]];
      SpelledEmpty(w);
      ReadComplete(doc, tokens[k], w.value);
      assert false;
    }
  }

  /** Every prefix of a text is viable, and costs no more than the text. */
  lemma TextPrefix(tokens: seq<Token>, k: nat, v: Json) returns (doc: Document)
    requires IsText(tokens, v) && k <= |tokens|
    ensures IsPrefixDocument(tokens, k, doc)
    ensures ValuesSoFar(doc) <= Values(v) && BytesSoFar(doc) <= TextBytes(v) && DepthSoFar(doc) <= Depth(v)
  {
    WholePartial(v);
    doc := PrefixSpelled(Some(v), k);
  }

  /** How the scan ended: which document it committed, and what stopped it. */
  datatype Outcome = Reached(doc: Document) | RefusedAt(doc: Document) | OverBudget(doc: Document, beyond: Document)

  ghost predicate Ended(tokens: seq<Token>, budget: Budget, k: nat, outcome: Outcome) {
    && IsPrefixDocument(tokens, k, outcome.doc) && Fits(outcome.doc, budget)
    && match outcome
       case Reached(doc) => k == |tokens|
       case RefusedAt(doc) => k < |tokens| && !Viable(tokens, k + 1)
       case OverBudget(doc, beyond) => k < |tokens| && IsPrefixDocument(tokens, k + 1, beyond) && !Fits(beyond, budget)
  }

  ghost predicate Finished(doc: Document) { doc.Some? && Whole(doc.value) }

  /** A scan that is over decodes its input exactly when the input is an admissible text. */
  lemma DecodedIff(tokens: seq<Token>, budget: Budget, k: nat, outcome: Outcome)
    requires Ended(tokens, budget, k, outcome)
    ensures (outcome.Reached? && Finished(outcome.doc) && DuplicatesSoFar(outcome.doc) == []) <==> exists v ::
      Admissible(tokens, v, budget)
    ensures (outcome.Reached? && Finished(outcome.doc)) ==> forall v :: IsText(tokens, v) ==>
      outcome.doc == Some(v) && ValuesSoFar(outcome.doc) == Values(v) && BytesSoFar(outcome.doc) == TextBytes(v)
        && DepthSoFar(outcome.doc) == Depth(v)
    ensures (outcome.Reached? && !Finished(outcome.doc)) || outcome.RefusedAt? ==> !exists v :: IsText(tokens, v)
  {
    hide Spell, Whole, Partial, Duplicates, DistinctNames, Values, TextBytes, Depth;
    if outcome.Reached? && Finished(outcome.doc) && DuplicatesSoFar(outcome.doc) == [] {
      assert tokens[..k] == tokens;
      NoDuplicates(outcome.doc.value);
      assert Admissible(tokens, outcome.doc.value, budget);
    }
    forall v | IsText(tokens, v)
      ensures outcome.Reached? ==> outcome.doc == Some(v)
      ensures !outcome.RefusedAt?
      ensures Admissible(tokens, v, budget) ==> outcome.Reached? && DuplicatesSoFar(outcome.doc) == []
    {
      var doc := TextPrefix(tokens, if outcome.Reached? then k else k + 1, v);
      WholePartial(v);
      assert tokens[..|tokens|] == tokens;
      NoDuplicates(v);
      if outcome.Reached? {
        Unique(tokens, k, outcome.doc, Some(v));
      } else if outcome.OverBudget? {
        Unique(tokens, k + 1, outcome.beyond, doc);
      }
    }
  }

  /** The counters of the result. */
  ghost predicate CountsOf(scan: RawDocumentScan, budget: Budget, outcome: Outcome) {
    if outcome.OverBudget? then
      && scan.stoppedBy == Some(Exceeded(outcome.beyond, budget))
      && scan.valueOccurrences == ValuesSoFar(outcome.beyond)
      && scan.stringBytes == (if scan.stoppedBy == Some(JsonValueOccurrences) then BytesSoFar(outcome.doc)
                              else Min(budget.stringBytesRemaining + 1, BytesSoFar(outcome.beyond)))
      && scan.maximumDepth == DepthSoFar(if scan.stoppedBy == Some(JsonDepth) then outcome.beyond else outcome.doc)
    else
      && scan.stoppedBy == None && scan.valueOccurrences == ValuesSoFar(outcome.doc)
      && scan.stringBytes == BytesSoFar(outcome.doc) && scan.maximumDepth == DepthSoFar(outcome.doc)
  }

  lemma FinishedFrames(doc: Document)
    requires Sound(doc)
    ensures Finished(doc) <==> doc.Some? && FramesOf(doc) == []
  {
    ClosedFrames(doc);
    if doc.Some? && Whole(doc.value) { WholePartial(doc.value); }
  }

  lemma NothingYet(tokens: seq<Token>)
    ensures IsPrefixDocument(tokens, 0, None)
  {
  }

  /**
   * Scans a document. It reads the longest viable prefix within the budget, reports the repeated names of
   * exactly that prefix, and decodes exactly the admissible texts.
   */
  method ScanRawDocument(tokens: seq<Token>, budget: Budget)
    returns (scan: RawDocumentScan, reported: seq<Path>, observedEnd: nat, depthLimit: Option<Path>,
      ghost outcome: Outcome)
    requires End !in tokens
    ensures Ended(tokens, budget, observedEnd, outcome)
    ensures reported == DuplicatesSoFar(outcome.doc) && (scan.duplicateKey <==> reported != [])
    ensures scan.invalidJson <==> outcome.RefusedAt? || (outcome.Reached? && !Finished(outcome.doc))
    ensures CountsOf(scan, budget, outcome)
    ensures scan.decoded <==> exists v :: Admissible(tokens, v, budget)
    ensures scan.invalidJson ==> !exists v :: IsText(tokens, v)
    ensures scan.decoded ==> forall v :: IsText(tokens, v) ==>
      scan.valueOccurrences == Values(v) && scan.stringBytes == TextBytes(v) && scan.maximumDepth == Depth(v)
    ensures depthLimit.Some? <==> scan.stoppedBy == Some(JsonDepth)
    ensures depthLimit.Some? ==> outcome.OverBudget? && LimitPath(outcome.beyond, depthLimit.value)
  {
    hide Spelled, Partial, Read, Fits, FramesOf, DuplicatesSoFar, StartsValue, Start, Sound, ValuesSoFar, BytesSoFar,
         DepthSoFar,
      Finished, IsPrefixDocument, Viable, Admissible, IsText, LimitPath, Exceeded, Values, TextBytes, Depth, Here;
    var state := new ScanState(budget);
    observedEnd := 0;
    ghost var doc: Document := None;
    NothingYet(tokens);
    outcome := Reached(None);
    while true
      invariant 0 <= observedEnd <= |tokens| && IsPrefixDocument(tokens, observedEnd, doc) && state.Shows(doc, budget)
      decreases |tokens| - observedEnd
    {
      // The cursor delivers End once the tokens are used up.
      var current := if observedEnd < |tokens| then tokens[observedEnd] else End;
      if current == End {
        FinishedFrames(doc);
        state.invalidJson := !state.rootSeen || state.frames != [];
        outcome := Reached(doc);
        break;
      }
      var more := state.Advance(current, budget, doc);
      if Read(doc, current).Some? { NextDocument(tokens, observedEnd, doc); }
      if !more {
        if state.invalidJson {
          Refused(tokens, observedEnd, doc);
          outcome := RefusedAt(doc);
        } else {
          outcome := OverBudget(doc, Read(doc, current));
        }
        break;
      }
      doc := Read(doc, current);
      observedEnd := observedEnd + 1;
    }
    reported, depthLimit := state.reported, state.depthLimit;
    scan := RawDocumentScan(!state.invalidJson && !state.duplicateKey
      && state.stoppedBy.None?, state.invalidJson, state.duplicateKey,
                            state.stoppedBy, state.valueOccurrences, state.stringBytes, state.maximumDepth);
    DecodedIff(tokens, budget, observedEnd, outcome);
  }
}
