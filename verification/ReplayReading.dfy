/** Reading one value of a replayed prefix, finished or cut off at its end (raw-duplicate-replay.ts). */
module ReplayReading {
  import opened Sequences
  import opened Paths
  import opened JsonTree
  import opened JsonLayout
  import opened DuplicateNames
  import opened RawDocument

  /** The next token before `end`, where a replayed prefix is over. */
  function Peek(tokens: seq<Token>, at: nat, end: nat): Token
    requires end <= |tokens|
  {
    if at < end then tokens[at] else End
  }

  predicate IsValue(t: Token) { Opens(t) || IsScalar(t) }

  /** A value stands here, and if it is cut off, nothing follows it. */
  ghost predicate ValueHere(tokens: seq<Token>, at: nat, end: nat, v: Json) {
    && Partial(v) && at + |Spell(v)| <= end <= |tokens|
    && tokens[at..at + |Spell(v)|] == Spell(v)
    && (Open(v) ==> at + |Spell(v)| == end)
  }

  /** The first k tokens of the value have been read into this document. */
  ghost predicate ReadTo(tokens: seq<Token>, at: nat, v: Json, k: nat, doc: Document) {
    && 0 < k <= |Spell(v)| && at + k <= |tokens| && Sound(doc) && doc.Some?
    && Spelled(doc) == Spell(v)[..k] && (k == |Spell(v)| <==> doc == Some(v))
  }

  lemma FirstRead(tokens: seq<Token>, at: nat, end: nat, v: Json) returns (doc: Document)
    requires ValueHere(tokens, at, end, v)
    ensures ReadTo(tokens, at, v, 1, doc) && at < end && Start(tokens[at]) == doc && IsValue(tokens[at])
    ensures Opens(tokens[at]) <==> v.Container?
  {
    hide Partial, Spell, Start, Extend;
    NotEmpty(v);
    doc := ValuePrefix(v, 1);
    var t := Spell(v)[0];
    assert tokens[at..at + |Spell(v)|][0] == tokens[at] == t;
    assert Spell(v)[..1] == [t];
    StartsWith(v);
    StartSpells(t);
    SpellInjective(doc.value, Start(t).value);
  }

  lemma NotEmpty(v: Json)
    requires Partial(v)
    ensures |Spell(v)| > 0
  {
  }

  lemma StartsWith(v: Json)
    requires Partial(v) && |Spell(v)| > 0
    ensures Start(Spell(v)[0]).Some? && IsValue(Spell(v)[0]) && (Opens(Spell(v)[0]) <==> v.Container?)
  {
  }

  /** Reading on inside a value: it stays open until its last token, and no token of it is refused. */
  lemma NextRead(tokens: seq<Token>, at: nat, end: nat, v: Json, k: nat, doc: Document)
    requires ValueHere(tokens, at, end, v) && ReadTo(tokens, at, v, k, doc) && k < |Spell(v)|
    ensures at + k < end && Read(doc, tokens[at + k]).Some? && ReadTo(tokens, at, v, k + 1, Read(doc, tokens[at + k]))
    ensures Open(doc.value) && NestingOf(doc) > 0 && tokens[at + k] != End && tokens[at + k] != Invalid
  {
    hide Partial, Spell, Start, Extend, Nesting, Sound, Spelled, Open;
    var d := ValuePrefix(v, k);
    SpelledInjective(d, doc);
    assert tokens[at..at + |Spell(v)|][k] == tokens[at + k];
    ReadSpells(doc, tokens[at + k]);
    NothingReads(doc);
    var e := ValuePrefix(v, k + 1);
    SpelledInjective(e, Read(doc, tokens[at + k]));
  }

  /** What follows a value that has been read. */
  lemma ReadOut(tokens: seq<Token>, at: nat, end: nat, v: Json, k: nat, doc: Document)
    requires ValueHere(tokens, at, end, v) && ReadTo(tokens, at, v, k, doc)
    ensures NestingOf(doc) == 0 ==> k == |Spell(v)|
    ensures at + k == end ==> k == |Spell(v)|
    ensures k == |Spell(v)| && NestingOf(doc) > 0 ==> at + k == end
  {
    if k < |Spell(v)| { NextRead(tokens, at, end, v, k, doc); }
    hide Partial, Spell, Nesting;
    OpenNests(v);
  }

  /** Passes over one value and returns where it ends. */
  method Capture(tokens: seq<Token>, at: nat, end: nat, ghost v: Json) returns (after: nat)
    requires ValueHere(tokens, at, end, v)
    ensures after == at + |Spell(v)|
  {
    hide Spell, Partial, ValueHere, ReadTo, Start, Extend, Read, Nesting, NestingOf;
    ghost var doc := FirstRead(tokens, at, end, v);
    InBounds(tokens, at, end, v);
    var first := tokens[at];
    if !IsValue(first) { assert false; }
    after := at + 1;
    if Opens(first) {
      FirstNesting(tokens[at]);
      var depth := 1;
      while depth != 0
        invariant at < after <= end && ReadTo(tokens, at, v, after - at, doc) && depth == NestingOf(doc)
        decreases end - after
      {
        ReadOut(tokens, at, end, v, after - at, doc);
        var current := Peek(tokens, after, end);
        WithinValue(tokens, at, v, after - at, doc);
        if after - at < |Spell(v)| {
          NextRead(tokens, at, end, v, after - at, doc);
          ReadNesting(doc, current);
          doc := Read(doc, current);
        }
        if current == End { return end; }
        if current == Invalid { assert false; }
        if Opens(current) {
          depth := depth + 1;
        } else if Closes(current) {
          depth := depth - 1;
        }
        after := after + 1;
      }
    } else {
      ScalarLength(v);
    }
    ReadOut(tokens, at, end, v, after - at, doc);
  }

  lemma InBounds(tokens: seq<Token>, at: nat, end: nat, v: Json)
    requires ValueHere(tokens, at, end, v)
    ensures at + |Spell(v)| <= end <= |tokens| && Partial(v)
  {
  }

  lemma WithinValue(tokens: seq<Token>, at: nat, v: Json, k: nat, doc: Document)
    requires ReadTo(tokens, at, v, k, doc)
    ensures 0 < k <= |Spell(v)| && Sound(doc) && doc.Some?
  {
  }

  lemma FirstNesting(t: Token)
    requires Opens(t)
    ensures NestingOf(Start(t)) == 1
  {
  }

  lemma ScalarLength(v: Json)
    requires v.Scalar?
    ensures |Spell(v)| == 1 && NestingOf(Some(v)) == 0 && Duplicates(v) == []
  {
  }

  // ---- folding a value into one verdict ----

  datatype FoldFrame = FoldFrame(keys: Option<set<string>>, keyExpected: bool)

  ghost function FoldOf(f: Frame): FoldFrame {
    match f
    case ObjectFrame(_, keys, state, _) => FoldFrame(Some(keys), state == FirstKey || state == NextKey)
    case ArrayFrame(_, _, _) => FoldFrame(None, true)
  }

  ghost function FoldFrames(fs: seq<Frame>): (r: seq<FoldFrame>)
    ensures |r| == |fs|
  {
    seq(|fs|, i requires 0 <= i < |fs| => FoldOf(fs[i]))
  }

  function FreshFold(t: Token): FoldFrame { FoldFrame(if t == ObjectStart then Some({}) else None, true) }

  /** What a token does to the frame on top, when it opens and closes nothing. */
  function Touched(f: FoldFrame, t: Token): FoldFrame {
    if t == Comma then f.(keyExpected := true)
    else if t.StringToken? && f.keys.Some? && f.keyExpected then FoldFrame(Some(f.keys.value + {t.text}), false)
    else f
  }

  lemma FoldPush(fs: seq<Frame>, t: Token, at: Option<Segment>)
    requires fs != []
    ensures FoldFrames(fs[..|fs| - 1] + [Committed(fs[|fs| - 1])] + Fresh(t, at)) ==
      FoldFrames(fs)[..|fs| - 1] + [FoldOf(Committed(fs[|fs| - 1]))] + (if Opens(t) then [FreshFold(t)] else [])
  {
  }

  lemma FoldMove(fs: seq<Frame>, t: Token)
    requires fs != []
    ensures FoldFrames(fs[..|fs| - 1] + Moved(fs[|fs| - 1], t)) ==
      FoldFrames(fs)[..|fs| - 1] + FoldFrames(Moved(fs[|fs| - 1], t))
  {
  }

  lemma FoldFrameSteps(f: Frame, t: Token)
    ensures WaitsForValue(f) && Start(t).Some? ==>
      FoldOf(Committed(f)) == FoldOf(f) && Touched(FoldOf(f), t) == FoldOf(f)
    ensures Takes(f, t) ==> FoldFrames(Moved(f, t)) == if Closes(t) then [] else [Touched(FoldOf(f), t)]
    ensures Takes(f, t) ==> !Opens(t)
    ensures WaitsForValue(f) && Start(t).Some? ==> !Closes(t)
    ensures Takes(f, t) && t.StringToken? ==> f.ObjectFrame? && FoldOf(f).keyExpected
    ensures WaitsForValue(f) ==> !(FoldOf(f).keys.Some? && FoldOf(f).keyExpected)
  {
    if Takes(f, t) && !Closes(t) { assert FoldFrames(Moved(f, t)) == [FoldOf(Moved(f, t)[0])]; }
  }

  /** How the fold follows the document. */
  lemma FoldStep(doc: Document, t: Token)
    requires Sound(doc) && doc.Some? && Open(doc.value) && Read(doc, t).Some?
    ensures |FramesOf(doc)| > 0
    ensures var fs := FoldFrames(FramesOf(doc)); var top := fs[|fs| - 1];
      && (FoldFrames(FramesOf(Read(doc, t))) ==
          if Opens(t) then fs + [FreshFold(t)]
          else if Closes(t) then fs[..|fs| - 1]
          else fs[..|fs| - 1] + [Touched(top, t)])
      && (DuplicatesSoFar(Read(doc, t)) != [] <==>
          DuplicatesSoFar(doc) != []
            || (t.StringToken? && top.keys.Some? && top.keyExpected && t.text in top.keys.value))
  {
    hide *;
    FramesRead(doc, t);
    var fs, top := FramesOf(doc), Top(doc);
    FoldFrameSteps(top, t);
    FoldTop(fs);
    DuplicatesRead(doc, t);
    if StartsValue(doc, t) {
      ValueFacts(doc, t);
      FoldPush(fs, t, Some(ChildSegment(top)));
      FoldPushed(fs, t);
    } else {
      TakenFacts(doc, t);
      FoldMove(fs, t);
      TakesKeys(top, t);
    }
  }

  lemma TakesKeys(f: Frame, t: Token)
    requires Takes(f, t)
    ensures t.StringToken? ==> f.ObjectFrame? && FoldOf(f).keys == Some(f.keys) && FoldOf(f).keyExpected
    ensures !Opens(t)
  {
  }

  lemma FoldTop(fs: seq<Frame>)
    requires fs != []
    ensures FoldFrames(fs)[|fs| - 1] == FoldOf(fs[|fs| - 1])
  {
  }

  lemma FoldPushed(fs: seq<Frame>, t: Token)
    requires fs != []
    requires FoldOf(Committed(fs[|fs| - 1])) == FoldOf(fs[|fs| - 1])
    requires Touched(FoldOf(fs[|fs| - 1]), t) == FoldOf(fs[|fs| - 1])
    ensures var ff := FoldFrames(fs);
      && ff[..|fs| - 1] + [FoldOf(Committed(fs[|fs| - 1]))] + [FreshFold(t)] == ff + [FreshFold(t)]
      && ff[..|fs| - 1] + [FoldOf(Committed(fs[|fs| - 1]))] + [] == ff[..|fs| - 1] + [Touched(FoldOf(fs[|fs| - 1]), t)]
      && |ff| == |fs| && ff[|fs| - 1] == FoldOf(fs[|fs| - 1])
  {
  }

  ghost predicate Folding(frames: seq<FoldFrame>, duplicate: bool, doc: Document) {
    frames == FoldFrames(FramesOf(doc)) && (duplicate <==> DuplicatesSoFar(doc) != [])
  }

  lemma FoldStart(t: Token)
    requires Opens(t)
    ensures Folding([FreshFold(t)], false, Start(t))
  {
    FreshFrames(t, None);
  }

  lemma FoldLength(frames: seq<FoldFrame>, duplicate: bool, doc: Document)
    requires Folding(frames, duplicate, doc)
    ensures |frames| == |FramesOf(doc)| && (frames == [] <==> NestingOf(doc) == 0)
  {
    if doc.Some? && Open(doc.value) { FramesTop(doc.value, None); }
  }

  /** Whether a name is repeated anywhere inside one value. */
  method Fold(tokens: seq<Token>, at: nat, end: nat, ghost v: Json) returns (duplicate: bool, after: nat)
    requires ValueHere(tokens, at, end, v)
    ensures duplicate <==> Duplicates(v) != []
    ensures after == at + |Spell(v)|
  {
    hide Spell, Partial, ValueHere, ReadTo, Start, Extend, Read, Nesting, NestingOf, Duplicates, DuplicatesSoFar,
         Folding, FramesOf;
    ghost var doc := FirstRead(tokens, at, end, v);
    InBounds(tokens, at, end, v);
    var first := tokens[at];
    if !IsValue(first) { assert false; }
    duplicate, after := false, at + 1;
    if !Opens(first) { ScalarLength(v); ReadOut(tokens, at, end, v, after - at, doc); return; }
    var frames := [FreshFold(first)];
    FoldStart(first);
    while frames != []
      invariant at < after <= end && ReadTo(tokens, at, v, after - at, doc) && Folding(frames, duplicate, doc)
      decreases end - after
    {
      FoldLength(frames, duplicate, doc);
      ReadOut(tokens, at, end, v, after - at, doc);
      WithinValue(tokens, at, v, after - at, doc);
      var current := Peek(tokens, after, end);
      ghost var before, wasDuplicate := frames, duplicate;
      if after - at < |Spell(v)| {
        NextRead(tokens, at, end, v, after - at, doc);
        FoldStep(doc, current);
        FoldingMeans(before, wasDuplicate, doc);
      }
      if current == End { break; }
      if current == Invalid { assert false; }
      if Opens(current) {
        frames := frames + [FreshFold(current)];
      } else if Closes(current) {
        frames := frames[..|frames| - 1];
      } else {
        var frame := frames[|frames| - 1];
        if current == Comma {
          frames := frames[..|frames| - 1] + [frame.(keyExpected := true)];
        } else if current.StringToken? && frame.keys.Some? && frame.keyExpected {
          if current.text in frame.keys.value { duplicate := true; }
          frames := frames[..|frames| - 1] + [FoldFrame(Some(frame.keys.value + {current.text}), false)];
        }
      }
      Followed(before, frames, wasDuplicate, duplicate, doc, current);
      doc := Read(doc, current);
      after := after + 1;
    }
    FoldLength(frames, duplicate, doc);
    ReadOut(tokens, at, end, v, after - at, doc);
    FoldedAll(tokens, at, v, after - at, doc, frames, duplicate);
  }

  lemma FoldingMeans(frames: seq<FoldFrame>, duplicate: bool, doc: Document)
    requires Folding(frames, duplicate, doc)
    ensures frames == FoldFrames(FramesOf(doc)) && (duplicate <==> DuplicatesSoFar(doc) != [])
  {
  }

  lemma Followed(before: seq<FoldFrame>, frames: seq<FoldFrame>, wasDuplicate: bool, duplicate: bool, doc: Document,
                 t: Token)
    requires Folding(before, wasDuplicate, doc) && before != []
    requires Sound(doc) && doc.Some? && Open(doc.value) && Read(doc, t).Some?
    requires frames == if Opens(t) then before + [FreshFold(t)] else if Closes(t) then before[..|before| - 1]
                       else before[..|before| - 1] + [Touched(before[|before| - 1], t)]
    requires var top := before[|before| - 1];
      duplicate <==>
        wasDuplicate
          || (!Opens(t) && !Closes(t) && t.StringToken? && top.keys.Some? && top.keyExpected
            && t.text in top.keys.value)
    ensures Folding(frames, duplicate, Read(doc, t))
  {
    hide FramesOf, DuplicatesSoFar, Read, Touched, FoldFrames;
    FoldStep(doc, t);
  }

  lemma FoldedAll(tokens: seq<Token>, at: nat, v: Json, k: nat, doc: Document, frames: seq<FoldFrame>, duplicate: bool)
    requires ReadTo(tokens, at, v, k, doc) && k == |Spell(v)| && Folding(frames, duplicate, doc)
    ensures duplicate <==> Duplicates(v) != []
  {
  }
}
