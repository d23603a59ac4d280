/** The lazily indexed second pass over a decoded document (raw-document.ts): it answers as the parsed tree does. */
module RawView {
  import opened Sequences
  import opened JsonTree
  import opened JsonLayout
  import opened DuplicateNames
  import Decimals

  datatype Kind = RecordKind | ArrayKind | StringKind | NumberKind | BooleanKind | NullKind

  datatype Span = Span(start: nat, end: nat, kind: Kind)

  /** Handles expose nothing; the view's own tables say what they stand for. */
  type Handle = int

  datatype RecordIndex = RecordIndex(members: map<string, Handle>, keys: seq<string>)

  datatype ArrayIndex = ArrayIndex(length: nat, cursor: Option<nat>, nextIndex: nat, last: Option<Handle>)

  function LexicalKind(t: Token): Option<Kind> {
    match t
    case ObjectStart => Some(RecordKind)
    case ArrayStart => Some(ArrayKind)
    case StringToken(_, _) => Some(StringKind)
    case NumberToken(_) => Some(NumberKind)
    case TrueToken => Some(BooleanKind)
    case FalseToken => Some(BooleanKind)
    case NullToken => Some(NullKind)
    case _ => None
  }

  // ---- the parsed tree ----

  ghost function KindOf(v: Json): Kind
    requires Whole(v)
  {
    match v
    case Container(record, _, _) => if record then RecordKind else ArrayKind
    case Scalar(t) =>
      if t.StringToken? then StringKind else if t.NumberToken? then NumberKind else if t == NullToken then NullKind
      else BooleanKind
  }

  ghost function KeysOf(es: seq<Entry>): seq<string> {
    if es == [] then []
    else KeysOf(es[..|es| - 1]) + if es[|es| - 1].tag.Key? then [es[|es| - 1].tag.text] else []
  }

  /** What the scan admits: finished, without repeated names, not too deep. */
  ghost predicate Decoded(v: Json) {
    Whole(v) && DistinctNames(v) && Depth(v) <= JSON_DEPTH
  }

  lemma {:induction false} ShallowEntries(es: seq<Entry>, i: nat)
    requires i < |es|
    ensures Depth(es[i].value) <= DepthIn(es)
    decreases |es|
  {
    var n := |es| - 1;
    if i < n { ShallowEntries(es[..n], i); }
    assert DepthOf(es[n]) == Depth(es[n].value);
  }

  /** The parts of a decoded value are decoded. */
  lemma DecodedParts(v: Json, i: nat)
    requires Decoded(v) && v.Container? && i < |v.entries|
    ensures Decoded(v.entries[i].value) && (v.entries[i].tag.Key? <==> v.record) && Depth(v.entries[i].value) < Depth(v)
    ensures v.phase == Closed && Partial(v) && Partial(v.entries[i].value)
  {
    ShallowEntries(v.entries, i);
    assert WholeEntries(v.record, v.entries);
    assert WholeEntry(v.record, v.entries[i]);
    WholePartial(v);
    WholePartial(v.entries[i].value);
  }

  // ---- the view ----

  function Peek(s: seq<Token>, at: nat): Token { if at < |s| then s[at] else End }

  ghost predicate Shown(tokens: seq<Token>, span: Span, v: Json) {
    Decoded(v) && Stretch(tokens, span.start, span.end, v) && span.kind == KindOf(v)
  }

  ghost predicate GoodSpan(tokens: seq<Token>, span: Span) {
    exists v :: Shown(tokens, span, v)
  }

  /** The part of the tree a span stands for. */
  ghost function NodeOf(tokens: seq<Token>, span: Span): (v: Json)
    requires GoodSpan(tokens, span)
    ensures Shown(tokens, span, v)
  {
    var v :| Shown(tokens, span, v);
    v
  }

  lemma NodeIs(tokens: seq<Token>, span: Span, v: Json)
    requires Shown(tokens, span, v)
    ensures GoodSpan(tokens, span) && NodeOf(tokens, span) == v
  {
    hide Spell, Partial, Decoded, KindOf;
    SpellInjective(NodeOf(tokens, span), v);
  }

  /** A handle stands for this value. */
  ghost predicate Stands(tokens: seq<Token>, spans: map<Handle, Span>, h: Handle, v: Json) {
    h in spans && Shown(tokens, spans[h], v)
  }

  ghost predicate GoodRecord(tokens: seq<Token>, spans: map<Handle, Span>, es: seq<Entry>, index: RecordIndex) {
    && index.keys == KeysOf(es)
    && index.members.Keys == Names(es)
    && forall i :: 0 <= i < |es| ==> GoodMember(tokens, spans, es[i], index)
  }

  ghost predicate GoodMember(tokens: seq<Token>, spans: map<Handle, Span>, e: Entry, index: RecordIndex) {
    e.tag.Key? && e.tag.text in index.members ==> Stands(tokens, spans, index.members[e.tag.text], e.value)
  }

  ghost predicate GoodArray(tokens: seq<Token>, spans: map<Handle, Span>, v: Json, index: ArrayIndex)
    requires v.Container?
  {
    && index.length == |v.entries| && index.nextIndex <= index.length
    && (index.cursor.Some? ==> index.cursor.value == At(v, index.nextIndex))
    && (index.last.Some? ==>
      index.cursor.Some? && index.nextIndex > 0
        && Stands(tokens, spans, index.last.value, v.entries[index.nextIndex - 1].value))
  }

  /** Passes over one value and returns where it ends; the two thrown errors are unreachable. */
  method ValueEnd(s: seq<Token>, at: nat, ghost v: Json) returns (end: nat)
    requires Decoded(v) && Holds(s, at, Spell(v))
    ensures end == at + |Spell(v)|
  {
    hide Spell, Partial, Decoded, Nesting, Extend, Start, Spelled, Sound, Read, KindOf, LexicalKind, NoMore;
    FirstToken(s, at, v);
    var first := s[at];
    end := at + 1;
    if !Opens(first) { return; }
    var depth := 1;
    ghost var doc := ValuePrefix(v, 1);
    StartDepth(s, at, v, doc);
    while depth != 0
      invariant at < end <= at + |Spell(v)| <= |s| && InValue(v, end - at, doc) && depth == NestingOf(doc)
      decreases at + |Spell(v)| - end
    {
      ghost var next := InValueStep(s, at, v, end - at, doc);
      var current := s[end];
      if Opens(current) {
        depth := depth + 1;
        if depth > JSON_DEPTH { assert false; }
      } else if Closes(current) {
        depth := depth - 1;
      }
      end := end + 1;
      doc := next;
    }
    InValueEnd(v, end - at, doc);
  }

  ghost predicate InValue(v: Json, k: nat, doc: Document) {
    0 < k <= |Spell(v)| && Sound(doc) && doc.Some? && Spelled(doc) == Spell(v)[..k]
  }

  lemma FirstToken(s: seq<Token>, at: nat, v: Json)
    requires Decoded(v) && Holds(s, at, Spell(v))
    ensures Partial(v)
    ensures 0 < |Spell(v)|
    ensures at + |Spell(v)| <= |s|
    ensures s[at] == Spell(v)[0]
    ensures LexicalKind(s[at]) == Some(KindOf(v))
    ensures Opens(s[at]) <==> v.Container?
    ensures !Opens(s[at]) ==> |Spell(v)| == 1
    ensures forall k :: 0 <= k < |Spell(v)| ==> s[at + k] == Spell(v)[k]
  {
    WholePartial(v);
    hide SpellEntries, Partial;
    forall k | 0 <= k < |Spell(v)| ensures s[at + k] == Spell(v)[k] { assert s[at..at + |Spell(v)|][k] == s[at + k]; }
  }

  lemma StartDepth(s: seq<Token>, at: nat, v: Json, doc: Document)
    requires Decoded(v) && Holds(s, at, Spell(v)) && InValue(v, 1, doc) && Opens(s[at])
    ensures NestingOf(doc) == 1
  {
    FirstToken(s, at, v);
    hide Spell, Partial, Nesting, Sound;
    var t := Spell(v)[0];
    assert Spell(v)[..1] == [t];
    StartSpells(t);
    SpellInjective(doc.value, Start(t).value);
    StartNesting(t);
  }

  lemma InValueStep(s: seq<Token>, at: nat, v: Json, k: nat, doc: Document) returns (next: Document)
    requires Decoded(v) && Holds(s, at, Spell(v)) && InValue(v, k, doc) && NestingOf(doc) > 0
    ensures k < |Spell(v)|
    ensures at + k < |s|
    ensures InValue(v, k + 1, next)
    ensures NestingOf(next) == NestingOf(doc) + Bracket(s[at + k]) <= JSON_DEPTH
    ensures s[at + k] != End && s[at + k] != Invalid
  {
    hide Spell, Partial, Nesting, Extend, Start, Spelled, Sound, NestingOf, NoMore, Bracket, Decoded, KindOf,
         LexicalKind, Read, Holds;
    FirstToken(s, at, v);
    ShallowView(v);
    var d := ValuePrefix(v, k);
    SpelledInjective(d, doc);
    WholeNesting(v);
    next := Read(doc, Spell(v)[k]);
    ReadSpells(doc, Spell(v)[k]);
    ReadNesting(doc, Spell(v)[k]);
    NothingReads(doc);
    var e := ValuePrefix(v, k + 1);
    SpelledInjective(e, next);
    NestingLimit(next, v);
  }

  lemma ShallowView(v: Json)
    requires Decoded(v)
    ensures Depth(v) <= JSON_DEPTH
  {
  }

  lemma WholeNesting(v: Json)
    requires Decoded(v)
    ensures Partial(v) && Nesting(v) == 0 && NestingOf(Some(v)) == 0
  {
    WholePartial(v);
  }

  lemma InValueEnd(v: Json, k: nat, doc: Document)
    requires Decoded(v) && InValue(v, k, doc) && NestingOf(doc) == 0
    ensures k == |Spell(v)|
  {
    WholePartial(v);
    hide Spell, Partial, Nesting, Extend, Start, Spelled;
    var d := ValuePrefix(v, k);
    SpelledInjective(d, doc);
  }

  // ---- reading a container ----

  /** The tokens a reader meets at the i-th entry of a decoded container. */
  lemma EntryTokens(v: Json, i: nat)
    requires Decoded(v) && v.Container? && i < |v.entries|
    ensures At(v, i) < At(v, i + 1) < |Spell(v)| && KeyAt(v, i) == At(v, i) + (if i > 0 then 1 else 0)
    ensures ValueAt(v, i) == KeyAt(v, i) + (if v.record then 2 else 0) && ValueAt(v, i) < At(v, i + 1)
    ensures i > 0 ==> Spell(v)[At(v, i)] == Comma
    ensures v.record ==>
      v.entries[i].tag.Key? && Spell(v)[KeyAt(v, i)] == KeyToken(v.entries[i].tag) && Spell(v)[KeyAt(v, i) + 1] == Colon
    ensures Holds(Spell(v), ValueAt(v, i), Spell(v.entries[i].value))
    ensures At(v, i + 1) == ValueAt(v, i) + |Spell(v.entries[i].value)|
    ensures Decoded(v.entries[i].value) && Spell(v)[ValueAt(v, i)] == Spell(v.entries[i].value)[0]
    ensures Start(Spell(v)[ValueAt(v, i)]).Some?
  {
    hide Spell, SpellEntries, Decoded;
    DecodedParts(v, i);
    EntryLayout(v, i);
    BeforeEnd(v, i + 1);
    FirstToken(Spell(v), ValueAt(v, i), v.entries[i].value);
    if i > 0 { HoldsOne(Spell(v), At(v, i), Comma); }
    if v.record {
      var tag := v.entries[i].tag;
      HoldsParts(Spell(v), KeyAt(v, i), [KeyToken(tag)], [Colon]);
      HoldsOne(Spell(v), KeyAt(v, i), KeyToken(tag));
      HoldsOne(Spell(v), KeyAt(v, i) + 1, Colon);
    }
  }

  lemma BeforeEnd(v: Json, i: nat)
    requires v.Container? && v.phase == Closed && i <= |v.entries|
    ensures At(v, i) <= At(v, |v.entries|) < |Spell(v)|
  {
    hide SpellEntries;
    ContainerLayout(v);
    EntriesPrefix(v, i);
    assert v.entries[..|v.entries|] == v.entries;
  }

  /** The tokens a reader meets at the ends of a decoded container. */
  lemma EndTokens(v: Json)
    requires Decoded(v) && v.Container?
    ensures At(v, 0) == 1 && Spell(v)[0] == Opening(v.record)
    ensures At(v, |v.entries|) + 1 == |Spell(v)| && Spell(v)[At(v, |v.entries|)] == Closing(v.record)
  {
    hide Spell, SpellEntries;
    ContainerLayout(v);
    assert Spell(v)[At(v, |v.entries|)..][0] == Spell(v)[At(v, |v.entries|)];
  }

  // ---- the tables ----

  ghost predicate Extends(a: map<Handle, Span>, b: map<Handle, Span>) {
    forall h :: h in a ==> h in b && b[h] == a[h]
  }

  ghost predicate RecordReady(tokens: seq<Token>, spans: map<Handle, Span>, h: Handle, index: RecordIndex) {
    && h in spans && GoodSpan(tokens, spans[h]) && spans[h].kind == RecordKind
    && NodeOf(tokens, spans[h]).Container? && GoodRecord(tokens, spans, NodeOf(tokens, spans[h]).entries, index)
  }

  ghost predicate ArrayReady(tokens: seq<Token>, spans: map<Handle, Span>, h: Handle, index: ArrayIndex) {
    && h in spans && GoodSpan(tokens, spans[h]) && spans[h].kind == ArrayKind
    && NodeOf(tokens, spans[h]).Container? && GoodArray(tokens, spans, NodeOf(tokens, spans[h]), index)
  }

  ghost predicate GoodSpans(tokens: seq<Token>, spans: map<Handle, Span>, nextHandle: nat) {
    forall h :: h in spans ==> h < nextHandle && GoodSpan(tokens, spans[h])
  }

  ghost predicate RecordsReady(tokens: seq<Token>, spans: map<Handle, Span>, records: map<Handle, RecordIndex>) {
    forall h :: h in records ==> RecordReady(tokens, spans, h, records[h])
  }

  ghost predicate ArraysReady(tokens: seq<Token>, spans: map<Handle, Span>, arrays: map<Handle, ArrayIndex>) {
    forall h :: h in arrays ==> ArrayReady(tokens, spans, h, arrays[h])
  }

  lemma GoodRecordGrows(tokens: seq<Token>, a: map<Handle, Span>, b: map<Handle, Span>, es: seq<Entry>,
                        index: RecordIndex)
    requires Extends(a, b) && GoodRecord(tokens, a, es, index)
    ensures GoodRecord(tokens, b, es, index)
  {
    hide Shown, KeysOf, Names;
  }

  /** New spans leave what the tables say as it was. */
  lemma TablesGrow(tokens: seq<Token>, a: map<Handle, Span>, b: map<Handle, Span>, records: map<Handle, RecordIndex>,
                   arrays: map<Handle, ArrayIndex>)
    requires Extends(a, b) && RecordsReady(tokens, a, records) && ArraysReady(tokens, a, arrays)
    ensures RecordsReady(tokens, b, records) && ArraysReady(tokens, b, arrays)
  {
    hide Shown, KeysOf, Names, GoodSpan, NodeOf, GoodRecord, At;
    forall h | h in records ensures RecordReady(tokens, b, h, records[h]) {
      assert RecordReady(tokens, a, h, records[h]);
      GoodRecordGrows(tokens, a, b, NodeOf(tokens, a[h]).entries, records[h]);
    }
    forall h | h in arrays ensures ArrayReady(tokens, b, h, arrays[h]) {
      assert ArrayReady(tokens, a, h, arrays[h]);
    }
  }

  lemma AddSpan(tokens: seq<Token>, spans: map<Handle, Span>, nextHandle: nat, span: Span)
    requires GoodSpans(tokens, spans, nextHandle) && GoodSpan(tokens, span)
    ensures GoodSpans(tokens, spans[nextHandle := span], nextHandle + 1) && Extends(spans, spans[nextHandle := span])
  {
    hide GoodSpan;
  }

  lemma PushRecord(tokens: seq<Token>, spans: map<Handle, Span>, v: Json, i: nat, members: map<string, Handle>,
                   keys: seq<string>, h: Handle)
    requires Decoded(v) && v.Container? && v.record && i < |v.entries|
    requires GoodRecord(tokens, spans, v.entries[..i], RecordIndex(members, keys))
    requires Stands(tokens, spans, h, v.entries[i].value)
    ensures v.entries[i].tag.Key? && v.entries[i].tag.text !in members
    ensures GoodRecord(tokens, spans, v.entries[..i + 1],
      RecordIndex(members[v.entries[i].tag.text := h], keys + [v.entries[i].tag.text]))
  {
    DecodedParts(v, i);
    var es, name := v.entries, v.entries[i].tag.text;
    FreshName(v, i);
    hide Shown, Decoded, Names, KeysOf;
    assert es[..i + 1] == es[..i] + [es[i]];
    PushNames(es[..i], es[i]);
    PushKeys(es[..i], es[i]);
    var index := RecordIndex(members[name := h], keys + [name]);
    var after := es[..i + 1];
    forall k | 0 <= k < |after| ensures GoodMember(tokens, spans, after[k], index) {
      if k < i {
        assert after[k] == es[..i][k];
        assert GoodMember(tokens, spans, es[..i][k], RecordIndex(members, keys));
        if es[k].tag.Key? { NamesAre(es[..i], es[k].tag.text); assert es[..i][k] == es[k]; }
      }
    }
  }

  lemma FreshName(v: Json, i: nat)
    requires Decoded(v) && v.Container? && v.record && i < |v.entries| && v.entries[i].tag.Key?
    ensures v.entries[i].tag.text !in Names(v.entries[..i])
  {
    var es := v.entries;
    NamesAre(es[..i], es[i].tag.text);
    forall k | 0 <= k < i && es[..i][k].tag.Key? ensures es[..i][k].tag.text != es[i].tag.text {
      assert es[..i][k] == es[k];
    }
  }

  lemma PushKeys(es: seq<Entry>, e: Entry)
    ensures KeysOf(es + [e]) == KeysOf(es) + if e.tag.Key? then [e.tag.text] else []
  {
    assert (es + [e])[..|es|] == es;
  }

  lemma SpanShown(tokens: seq<Token>, start: nat, end: nat, s: seq<Token>, at: nat, v: Json)
    requires start <= end <= |tokens| && s == tokens[start..end] && Decoded(v) && Holds(s, at, Spell(v))
    ensures Shown(tokens, Span(start + at, start + at + |Spell(v)|, KindOf(v)), v)
  {
    WholePartial(v);
    hide Spell, Partial, Decoded;
    InnerStretch(tokens, start, end, Spell(v), at);
  }

  lemma NewHandle(tokens: seq<Token>, spans: map<Handle, Span>, nextHandle: nat)
    requires GoodSpans(tokens, spans, nextHandle)
    ensures nextHandle !in spans
  {
    hide GoodSpan;
  }

  /** A container's tokens and shape, from the kind of its span. */
  lemma ContainerNode(tokens: seq<Token>, span: Span, v: Json)
    requires Shown(tokens, span, v) && (span.kind == RecordKind || span.kind == ArrayKind)
    ensures Decoded(v) && v.Container? && (v.record <==> span.kind == RecordKind)
    ensures span.start <= span.end <= |tokens| && tokens[span.start..span.end] == Spell(v)
  {
    hide Spell, Partial;
  }

  lemma NoMembers(tokens: seq<Token>, spans: map<Handle, Span>, v: Json)
    requires v.Container?
    ensures GoodRecord(tokens, spans, v.entries[..0], RecordIndex(map[], []))
  {
    assert v.entries[..0] == [];
  }

  lemma MemberIsNew(v: Json, i: nat, tokens: seq<Token>, spans: map<Handle, Span>, members: map<string, Handle>,
                    keys: seq<string>)
    requires Decoded(v) && v.Container? && v.record && i < |v.entries|
    requires GoodRecord(tokens, spans, v.entries[..i], RecordIndex(members, keys))
    ensures v.entries[i].tag.Key? && v.entries[i].tag.text !in members
  {
    DecodedParts(v, i);
    FreshName(v, i);
  }

  /** What stands after i entries: the closing bracket after the last, else a comma or the first entry. */
  lemma AtEnd(v: Json, i: nat)
    requires Decoded(v) && v.Container? && i <= |v.entries|
    ensures i == |v.entries| ==> Peek(Spell(v), At(v, i)) == Closing(v.record) && At(v, i) + 1 == |Spell(v)|
    ensures 0 < i < |v.entries| ==> Peek(Spell(v), At(v, i)) == Comma && KeyAt(v, i) == At(v, i) + 1
    ensures At(v, 0) == 1
    ensures 0 == i < |v.entries| ==> KeyAt(v, i) == 1 && Peek(Spell(v), 1) != Closing(v.record)
    ensures 0 < i < |v.entries| ==> ValueAt(v, i) < |Spell(v)|
  {
    hide Spell, Decoded, At, KeyAt, ValueAt;
    EndTokens(v);
    if i < |v.entries| {
      EntryTokens(v, i);
      NothingClosing(v, i);
    }
  }

  lemma NothingClosing(v: Json, i: nat)
    requires Decoded(v) && v.Container? && i < |v.entries|
    ensures Peek(Spell(v), KeyAt(v, i)) != Closing(v.record)
  {
    hide Spell, Decoded, At;
    EntryTokens(v, i);
  }

  lemma RecordAdded(tokens: seq<Token>, spans: map<Handle, Span>, records: map<Handle, RecordIndex>, h: Handle,
                    index: RecordIndex, v: Json)
    requires RecordsReady(tokens, spans, records)
    requires h in spans
    requires Shown(tokens, spans[h], v)
    requires v.Container?
    requires spans[h].kind == RecordKind
    requires GoodRecord(tokens, spans, v.entries, index)
    ensures RecordsReady(tokens, spans, records[h := index])
  {
    hide Shown, GoodRecord;
    NodeIs(tokens, spans[h], v);
  }

  lemma MemberTokens(v: Json, i: nat)
    requires Decoded(v) && v.Container? && v.record && i < |v.entries|
    ensures v.entries[i].tag.Key?
    ensures Peek(Spell(v), KeyAt(v, i)) == KeyToken(v.entries[i].tag)
    ensures Peek(Spell(v), KeyAt(v, i) + 1) == Colon
    ensures KeyToken(v.entries[i].tag).StringToken? && KeyToken(v.entries[i].tag).text == v.entries[i].tag.text
    ensures ValueAt(v, i) == KeyAt(v, i) + 2 && Holds(Spell(v), KeyAt(v, i) + 2, Spell(v.entries[i].value))
    ensures At(v, i + 1) == KeyAt(v, i) + 2 + |Spell(v.entries[i].value)| && Decoded(v.entries[i].value)
  {
    hide Spell, Decoded, At, KeyAt, ValueAt, Holds;
    EntryTokens(v, i);
  }

  lemma ExtendsSelf(a: map<Handle, Span>)
    ensures Extends(a, a)
  {
  }

  lemma ExtendsOn(a: map<Handle, Span>, b: map<Handle, Span>, c: map<Handle, Span>)
    requires Extends(a, b) && Extends(b, c)
    ensures Extends(a, c)
  {
  }

  lemma ItemTokens(v: Json, i: nat)
    requires Decoded(v) && v.Container? && !v.record && i < |v.entries|
    ensures KeyAt(v, i) == ValueAt(v, i) == At(v, i) + (if i > 0 then 1 else 0)
    ensures Holds(Spell(v), KeyAt(v, i), Spell(v.entries[i].value))
    ensures At(v, i + 1) == KeyAt(v, i) + |Spell(v.entries[i].value)| && Decoded(v.entries[i].value)
  {
    hide Spell, Decoded, At, KeyAt, ValueAt, Holds;
    EntryTokens(v, i);
  }

  lemma FreshArray(tokens: seq<Token>, spans: map<Handle, Span>, v: Json, index: ArrayIndex)
    requires v.Container? && index == ArrayIndex(|v.entries|, None, 0, None)
    ensures GoodArray(tokens, spans, v, index)
  {
  }

  lemma ArrayAdded(tokens: seq<Token>, spans: map<Handle, Span>, arrays: map<Handle, ArrayIndex>, h: Handle,
                   index: ArrayIndex, v: Json)
    requires ArraysReady(tokens, spans, arrays)
    requires h in spans
    requires Shown(tokens, spans[h], v)
    requires v.Container?
    requires spans[h].kind == ArrayKind
    requires GoodArray(tokens, spans, v, index)
    ensures ArraysReady(tokens, spans, arrays[h := index])
  {
    hide Shown, GoodArray;
    NodeIs(tokens, spans[h], v);
  }

  lemma ScalarNode(tokens: seq<Token>, span: Span, v: Json)
    requires Shown(tokens, span, v) && (span.kind == StringKind || span.kind == NumberKind)
    ensures v.Scalar? && span.start <= span.end <= |tokens| && Peek(tokens[span.start..span.end], 0) == v.token
    ensures if span.kind == StringKind then v.token.StringToken? else v.token.NumberToken?
  {
  }

  /** The answer to a request for a member: absent, or a handle for the value of that name. */
  ghost predicate Answers(tokens: seq<Token>, spans: map<Handle, Span>, es: seq<Entry>, key: string,
                          answer: Option<Handle>) {
    if answer.None? then key !in Names(es)
    else exists i :: 0 <= i < |es| && Named(es[i], key) && Stands(tokens, spans, answer.value, es[i].value)
  }

  ghost predicate Named(e: Entry, key: string) { e.tag.Key? && e.tag.text == key }

  lemma Looked(tokens: seq<Token>, spans: map<Handle, Span>, es: seq<Entry>, index: RecordIndex, key: string)
    requires GoodRecord(tokens, spans, es, index)
    ensures Answers(tokens, spans, es, key, if key in index.members then Some(index.members[key]) else None)
  {
    hide Names, KeysOf, Shown;
    if key in index.members {
      NamesAre(es, key);
      var i :| 0 <= i < |es| && es[i].tag.Key? && es[i].tag.text == key;
      assert GoodMember(tokens, spans, es[i], index) && Named(es[i], key);
    }
  }

  class View {
    const tokens: seq<Token>
    const root: Handle
    var spans: map<Handle, Span>
    var records: map<Handle, RecordIndex>
    var arrays: map<Handle, ArrayIndex>
    var nextHandle: nat

    ghost predicate Valid()
      reads this
    {
      && GoodSpans(tokens, spans, nextHandle)
      && RecordsReady(tokens, spans, records)
      && ArraysReady(tokens, spans, arrays)
    }

    /** The value a handle stands for; no call ever changes it. */
    ghost function Node(h: Handle): (v: Json)
      requires Valid() && h in spans
      reads this
      ensures Shown(tokens, spans[h], v)
    {
      NodeOf(tokens, spans[h])
    }

    /** The view of a decoded document starts at its root. */
    constructor (tokens: seq<Token>, ghost v: Json)
      requires Decoded(v) && tokens == Spell(v)
      ensures Valid() && this.tokens == tokens && root in spans && Node(root) == v
    {
      hide Spell, Decoded, Shown;
      assert Holds(tokens, 0, Spell(v)) by { assert tokens[0..|tokens|] == tokens; }
      FirstToken(tokens, 0, v);
      var end := ValueEnd(tokens, 0, v);
      assert end == |tokens|;
      if Peek(tokens, end) != End { assert false; }
      var span := Span(0, end, LexicalKind(tokens[0]).value);
      SpanShown(tokens, 0, |tokens|, tokens, 0, v);
      NodeIs(tokens, span, v);
      this.tokens := tokens;
      this.root := 0;
      this.spans := map[0 := span];
      this.records := map[];
      this.arrays := map[];
      this.nextHandle := 1;
    }

    predicate HasKind(h: Handle, kind: Kind)
      reads this`spans
    {
      h in spans && spans[h].kind == kind
    }

    /** Retains one element: a new handle for the value at `at`, and the position after it. */
    method Capture(s: seq<Token>, at: nat, base: nat, ghost v: Json) returns (h: Handle, end: nat)
      requires Valid()
      requires Decoded(v)
      requires Holds(s, at, Spell(v))
      requires base + |s| <= |tokens|
      requires s == tokens[base..base + |s|]
      modifies this`spans, this`nextHandle
      ensures Valid() && Extends(old(spans), spans)
      ensures Stands(tokens, spans, h, v) && h !in old(spans)
      ensures end == at + |Spell(v)|
    {
      hide Spell, Decoded, Shown, RecordsReady, ArraysReady, GoodSpan, GoodSpans;
      FirstToken(s, at, v);
      var kind := LexicalKind(s[at]);
      if kind.None? { assert false; }
      end := ValueEnd(s, at, v);
      h := nextHandle;
      var span := Span(base + at, base + end, kind.value);
      SpanShown(tokens, base, base + |s|, s, at, v);
      NodeIs(tokens, span, v);
      AddSpan(tokens, spans, nextHandle, span);
      NewHandle(tokens, spans, nextHandle);
      TablesGrow(tokens, spans, spans[h := span], records, arrays);
      spans := spans[h := span];
      nextHandle := nextHandle + 1;
    }

    /** Reads the members of an object once, with a handle for each. */
    method IndexRecord(s: seq<Token>, base: nat, ghost v: Json) returns (index: RecordIndex)
      requires Valid()
      requires Decoded(v)
      requires v.Container?
      requires v.record
      requires s == Spell(v)
      requires base + |s| <= |tokens|
      requires s == tokens[base..base + |s|]
      modifies this`spans, this`nextHandle
      ensures Valid() && Extends(old(spans), spans) && GoodRecord(tokens, spans, v.entries, index)
    {
      hide Spell, Decoded, GoodRecord, At, KeyAt, ValueAt, Valid, Extends, Holds, Shown, KeyToken;
      ExtendsSelf(spans);
      EndTokens(v);
      AtEnd(v, 0);
      NoMembers(tokens, spans, v);
      if Peek(s, 0) != ObjectStart { assert false; }
      var at := 2;
      var current := Peek(s, 1);
      var members: map<string, Handle>, keys: seq<string> := map[], [];
      ghost var i := 0;
      if current != ObjectEnd {
        while true
          invariant Valid() && Extends(old(spans), spans)
          invariant 0 <= i < |v.entries| && at == KeyAt(v, i) + 1 && current == Peek(s, KeyAt(v, i))
          invariant GoodRecord(tokens, spans, v.entries[..i], RecordIndex(members, keys))
          decreases |v.entries| - i
        {
          MemberTokens(v, i);
          if !current.StringToken? { assert false; }
          var key := current.text;
          MemberIsNew(v, i, tokens, spans, members, keys);
          if key in members || Peek(s, at) != Colon { assert false; }
          ghost var before := spans;
          var child, end := Capture(s, at + 1, base, v.entries[i].value);
          ExtendsOn(old(spans), before, spans);
          GoodRecordGrows(tokens, before, spans, v.entries[..i], RecordIndex(members, keys));
          PushRecord(tokens, spans, v, i, members, keys, child);
          members := members[key := child];
          keys := keys + [key];
          i := i + 1;
          AtEnd(v, i);
          var separator := Peek(s, end);
          if separator == ObjectEnd { break; }
          if separator != Comma { assert false; }
          current := Peek(s, end + 1);
          at := end + 2;
        }
      }
      assert v.entries[..i] == v.entries;
      return RecordIndex(members, keys);
    }

    method RecordOf(h: Handle) returns (r: Option<RecordIndex>)
      requires Valid()
      modifies this
      ensures Valid() && Extends(old(spans), spans)
      ensures r.Some? <==> old(HasKind(h, RecordKind))
      ensures r.Some? ==>
        Node(h) == old(Node(h)) && Node(h).Container? && GoodRecord(tokens, spans, Node(h).entries, r.value)
    {
      hide Spell, Decoded, GoodRecord, GoodSpan, Shown, Holds, ArraysReady;
      ExtendsSelf(spans);
      if !HasKind(h, RecordKind) { return None; }
      if h in records {
        assert RecordReady(tokens, spans, h, records[h]);
        return Some(records[h]);
      }
      var span := spans[h];
      ghost var v := Node(h);
      ContainerNode(tokens, span, v);
      var indexed := IndexRecord(tokens[span.start..span.end], span.start, v);
      RecordAdded(tokens, spans, records, h, indexed, v);
      records := records[h := indexed];
      NodeIs(tokens, span, v);
      r := Some(indexed);
    }

    /** Counts an array's items once, with no handle for any. */
    method CountItems(s: seq<Token>, ghost v: Json) returns (length: nat)
      requires Decoded(v) && v.Container? && !v.record && s == Spell(v)
      ensures length == |v.entries|
    {
      hide Spell, Decoded, At, KeyAt, ValueAt, Holds, Start;
      EndTokens(v);
      AtEnd(v, 0);
      if Peek(s, 0) != ArrayStart { assert false; }
      var at := 1;
      length := 0;
      if Peek(s, 1) != ArrayEnd {
        while true
          invariant 0 <= length < |v.entries| && at == KeyAt(v, length)
          decreases |v.entries| - length
        {
          ItemTokens(v, length);
          var end := ValueEnd(s, at, v.entries[length].value);
          length := length + 1;
          AtEnd(v, length);
          var separator := Peek(s, end);
          if separator == ArrayEnd { break; }
          if separator != Comma { assert false; }
          at := end + 1;
        }
      }
    }

    method ArrayOf(h: Handle) returns (r: Option<ArrayIndex>)
      requires Valid()
      modifies this`arrays
      ensures Valid()
      ensures r.Some? <==> HasKind(h, ArrayKind)
      ensures r.Some? ==>
        h in arrays && arrays[h] == r.value && Node(h).Container? && GoodArray(tokens, spans, Node(h), r.value)
    {
      hide Spell, Decoded, GoodArray, GoodSpan, Shown, Holds, RecordsReady;
      if !HasKind(h, ArrayKind) { return None; }
      if h in arrays {
        assert ArrayReady(tokens, spans, h, arrays[h]);
        return Some(arrays[h]);
      }
      var span := spans[h];
      ghost var v := Node(h);
      ContainerNode(tokens, span, v);
      var length := CountItems(tokens[span.start..span.end], v);
      var indexed := ArrayIndex(length, None, 0, None);
      FreshArray(tokens, spans, v, indexed);
      ArrayAdded(tokens, spans, arrays, h, indexed, v);
      arrays := arrays[h := indexed];
      r := Some(indexed);
    }

    /** Walks the retained cursor, rewound when it is past the item, to the item and captures it. */
    method Walk(s: seq<Token>, base: nat, index: nat, start: ArrayIndex, ghost v: Json) returns (indexed: ArrayIndex)
      requires Valid()
      requires Decoded(v)
      requires v.Container?
      requires !v.record
      requires s == Spell(v)
      requires base + |s| <= |tokens|
      requires s == tokens[base..base + |s|]
      requires GoodArray(tokens, spans, v, start) && index < |v.entries|
      modifies this`spans, this`nextHandle
      ensures Valid() && Extends(old(spans), spans) && GoodArray(tokens, spans, v, indexed)
      ensures indexed.nextIndex == index + 1 && indexed.last.Some?
    {
      hide Spell, Decoded, At, KeyAt, ValueAt, Valid, Extends, Holds, Shown, Start;
      ExtendsSelf(spans);
      EndTokens(v);
      indexed := start;
      if indexed.cursor.None? || index < indexed.nextIndex {
        if Peek(s, 0) != ArrayStart { assert false; }
        indexed := indexed.(cursor := Some(1), nextIndex := 0, last := None);
      }
      while indexed.nextIndex <= index
        invariant Valid() && Extends(old(spans), spans)
        invariant indexed.length == |v.entries| && indexed.nextIndex <= index + 1
        invariant indexed.cursor == Some(At(v, indexed.nextIndex))
        invariant indexed.nextIndex == index + 1 ==>
          indexed.last.Some? && Stands(tokens, spans, indexed.last.value, v.entries[index].value)
        decreases index + 1 - indexed.nextIndex
      {
        ghost var i := indexed.nextIndex;
        ItemTokens(v, i);
        AtEnd(v, i);
        var at := indexed.cursor.value;
        if indexed.nextIndex != 0 {
          if Peek(s, at) != Comma { assert false; }
          at := at + 1;
        }
        if indexed.nextIndex == index {
          ghost var before := spans;
          var last, end := Capture(s, at, base, v.entries[i].value);
          ExtendsOn(old(spans), before, spans);
          indexed := indexed.(last := Some(last), cursor := Some(end));
        } else {
          var end := ValueEnd(s, at, v.entries[i].value);
          indexed := indexed.(cursor := Some(end));
        }
        indexed := indexed.(nextIndex := indexed.nextIndex + 1);
      }
      if indexed.last.None? { assert false; }
    }

    // ---- what the reader answers ----

    /** Thrown errors are None: a handle from elsewhere, a value of another kind, an index out of range. */
    method ReadKind(h: Handle) returns (r: Option<Kind>)
      requires Valid()
      ensures r == if h in spans then Some(KindOf(Node(h))) else None
    {
      if h !in spans { return None; }
      r := Some(spans[h].kind);
    }

    method Keys(h: Handle) returns (r: Option<seq<string>>)
      requires Valid()
      modifies this
      ensures Valid() && Extends(old(spans), spans)
      ensures r.Some? <==> old(HasKind(h, RecordKind))
      ensures r.Some? ==> Node(h) == old(Node(h)) && Node(h).Container? && r.value == KeysOf(Node(h).entries)
    {
      hide Valid, Shown, Extends;
      var index := RecordOf(h);
      r := if index.None? then None else Some(index.value.keys);
    }

    /** The member of this name, if there is one. */
    method Own(h: Handle, key: string) returns (r: Option<Option<Handle>>)
      requires Valid()
      modifies this
      ensures Valid() && Extends(old(spans), spans)
      ensures r.Some? <==> old(HasKind(h, RecordKind))
      ensures r.Some? ==>
        Node(h) == old(Node(h)) && Node(h).Container? && Answers(tokens, spans, Node(h).entries, key, r.value)
    {
      hide Valid, Shown, GoodRecord;
      var index := RecordOf(h);
      if index.None? { return None; }
      Looked(tokens, spans, Node(h).entries, index.value, key);
      r := Some(if key in index.value.members then Some(index.value.members[key]) else None);
    }

    method Length(h: Handle) returns (r: Option<nat>)
      requires Valid()
      modifies this`arrays
      ensures Valid()
      ensures r.Some? <==> HasKind(h, ArrayKind)
      ensures r.Some? ==> Node(h).Container? && r.value == |Node(h).entries|
    {
      hide Valid, Shown;
      var index := ArrayOf(h);
      r := if index.None? then None else Some(index.value.length);
    }

    /** The item at this index, whatever was read before. */
    method Item(h: Handle, index: int) returns (r: Option<Handle>)
      requires Valid()
      modifies this
      ensures Valid() && Extends(old(spans), spans)
      ensures old(HasKind(h, ArrayKind)) ==> Node(h) == old(Node(h)) && Node(h).Container? && !Node(h).record
      ensures r.Some? <==> old(HasKind(h, ArrayKind)) && 0 <= index < |old(Node(h)).entries|
      ensures r.Some? ==> Stands(tokens, spans, r.value, Node(h).entries[index].value)
    {
      hide Spell, Decoded, GoodSpan, Shown, Holds, At;
      ExtendsSelf(spans);
      if !HasKind(h, ArrayKind) { return None; }
      var span := spans[h];
      ghost var v := Node(h);
      ContainerNode(tokens, span, v);
      var indexed := ArrayOf(h);
      if !(0 <= index < indexed.value.length) { return None; }
      if indexed.value.last.Some? && index == indexed.value.nextIndex - 1 { return indexed.value.last; }
      var walked := Walk(tokens[span.start..span.end], span.start, index, indexed.value, v);
      NodeIs(tokens, span, v);
      ArrayAdded(tokens, spans, arrays, h, walked, v);
      arrays := arrays[h := walked];
      r := walked.last;
    }

    method Text(h: Handle) returns (r: Option<string>)
      requires Valid()
      ensures r.Some? <==> HasKind(h, StringKind)
      ensures r.Some? ==> Node(h).Scalar? && Node(h).token.StringToken? && r.value == Node(h).token.text
    {
      if !HasKind(h, StringKind) { return None; }
      ScalarNode(tokens, spans[h], Node(h));
      var current := Peek(tokens[spans[h].start..spans[h].end], 0);
      if !current.StringToken? { assert false; }
      r := Some(current.text);
    }

    method Integer(h: Handle) returns (r: Option<Decimals.ExactInteger>)
      requires Valid()
      ensures r.Some? <==> HasKind(h, NumberKind)
      ensures r.Some? ==> Node(h).Scalar? && Node(h).token.NumberToken? && r.value == Node(h).token.verdict
    {
      if !HasKind(h, NumberKind) { return None; }
      ScalarNode(tokens, spans[h], Node(h));
      r := Some(Peek(tokens[spans[h].start..spans[h].end], 0).verdict);
    }
  }
}
