/** JSON documents as trees over scanner tokens, possibly cut off, and how a tree grows token by token. */
module JsonTree {
  import opened Sequences
  import opened Paths
  import Decimals

  /**
   * What the lexical scanner delivers. A string token carries its decoded text and the text's
   * UTF-8 length, a number token its exact integer verdict. End is never inside a document.
   */
  datatype Token =
    | ObjectStart | ObjectEnd | ArrayStart | ArrayEnd | Colon | Comma
    | StringToken(text: string, bytes: nat)
    | NumberToken(verdict: Decimals.ExactInteger)
    | TrueToken | FalseToken | NullToken
    | End | Invalid

  /** The deepest admitted nesting of containers. */
  const JSON_DEPTH: nat := 32

  datatype Tag = Key(text: string, bytes: nat) | Position

  /** How far a container has been read. */
  datatype Phase = Closed | First | Next | AwaitColon(key: Tag) | AwaitValue(key: Tag) | After

  datatype Entry = Entry(tag: Tag, value: Json)

  /** A value; a container that is not closed was cut off before its closing bracket. */
  datatype Json =
    | Scalar(token: Token)
    | Container(record: bool, entries: seq<Entry>, phase: Phase)

  predicate IsScalar(t: Token) {
    t.StringToken? || t.NumberToken? || t.TrueToken? || t.FalseToken? || t.NullToken?
  }

  predicate Pending(p: Phase) { p.AwaitColon? || p.AwaitValue? }

  function SegmentOf(tag: Tag, i: nat): Segment {
    if tag.Key? then Field(tag.text) else Index(i)
  }

  /** How the i-th part of a container is addressed. */
  function SegmentAt(v: Json, i: nat): Segment
    requires v.Container? && i < |v.entries|
  {
    SegmentOf(v.entries[i].tag, i)
  }

  /** Finished in every part. */
  ghost predicate Whole(v: Json)
    decreases v, 0
  {
    match v
    case Scalar(t) => IsScalar(t)
    case Container(record, es, phase) => phase == Closed && WholeEntries(record, es)
  }

  ghost predicate WholeEntries(record: bool, es: seq<Entry>)
    decreases es, 1
  {
    forall i :: 0 <= i < |es| ==> WholeEntry(record, es[i])
  }

  ghost predicate WholeEntry(record: bool, e: Entry)
    decreases e, 0
  {
    (e.tag.Key? <==> record) && Whole(e.value)
  }

  ghost predicate PhaseFits(record: bool, n: nat, phase: Phase) {
    && (phase == First ==> n == 0)
    && (phase == Next || phase == After ==> n > 0)
    && (Pending(phase) ==> record && phase.key.Key?)
  }

  predicate Open(v: Json) { v.Container? && v.phase != Closed }

  /** Possibly cut off, but only along the last entries. */
  ghost predicate Partial(v: Json)
    decreases v
  {
    if !Open(v) then Whole(v)
    else
      && PhaseFits(v.record, |v.entries|, v.phase)
      && if v.phase == After then
        var last := v.entries[|v.entries| - 1];
        WholeEntries(v.record, v.entries[..|v.entries| - 1]) && (last.tag.Key? <==> v.record) && Partial(last.value)
      else WholeEntries(v.record, v.entries)
  }

  function Opening(record: bool): Token { if record then ObjectStart else ArrayStart }
  function Closing(record: bool): Token { if record then ObjectEnd else ArrayEnd }

  ghost function Separator(n: nat): seq<Token> { if n == 0 then [] else [Comma] }

  ghost function KeyToken(tag: Tag): Token
    requires tag.Key?
  {
    StringToken(tag.text, tag.bytes)
  }

  ghost function SpellTag(tag: Tag): seq<Token> {
    if tag.Key? then [KeyToken(tag), Colon] else []
  }

  ghost function Ending(record: bool, n: nat, phase: Phase): seq<Token> {
    match phase
    case Closed => [Closing(record)]
    case First => []
    case After => []
    case Next => [Comma]
    case AwaitColon(key) => Separator(n) + if key.Key? then [KeyToken(key)] else []
    case AwaitValue(key) => Separator(n) + SpellTag(key)
  }

  /** The tokens of a value (sections 2 to 5 of RFC 8259), as far as it was read. */
  ghost function Spell(v: Json): seq<Token>
    decreases v, 0
  {
    match v
    case Scalar(t) => [t]
    case Container(record, es, phase) => [Opening(record)] + SpellEntries(es) + Ending(record, |es|, phase)
  }

  ghost function SpellEntries(es: seq<Entry>): seq<Token>
    decreases es, 1
  {
    if es == [] then []
    else SpellEntries(es[..|es| - 1]) + SpellEntry(|es| - 1, es[|es| - 1])
  }

  ghost function SpellEntry(i: nat, e: Entry): seq<Token>
    decreases e, 0
  {
    Separator(i) + SpellTag(e.tag) + Spell(e.value)
  }

  lemma PushEntry(es: seq<Entry>, e: Entry)
    ensures (es + [e])[..|es|] == es && (es + [e])[|es|] == e
    ensures SpellEntries(es + [e]) == SpellEntries(es) + SpellEntry(|es|, e)
  {
    assert (es + [e])[..|es|] == es;
  }

  // ---- reading one more token ----

  type Document = Option<Json>

  ghost predicate Sound(doc: Document) { doc.Some? ==> Partial(doc.value) }

  ghost function Spelled(doc: Document): seq<Token> { if doc.Some? then Spell(doc.value) else [] }

  /** The value a token starts. */
  function Start(t: Token): Document {
    if t == ObjectStart then Some(Container(true, [], First))
    else if t == ArrayStart then Some(Container(false, [], First))
    else if IsScalar(t) then Some(Scalar(t))
    else None
  }

  /** Whether the innermost open container is this one. */
  predicate Innermost(v: Json)
    requires Open(v)
  {
    !(v.phase == After && v.entries != [] && Open(v.entries[|v.entries| - 1].value))
  }

  /** Whether a value may start here. */
  predicate ValueExpected(v: Json)
    requires Open(v)
  {
    if v.record then v.phase.AwaitValue? else v.phase == First || v.phase == Next
  }

  function Placed(v: Json, w: Json): Json
    requires Open(v) && ValueExpected(v)
  {
    v.(entries := v.entries + [Entry(if v.record then v.phase.key else Position, w)], phase := After)
  }

  /** One token read by the innermost open container. */
  function Local(v: Json, t: Token): Document
    requires Open(v)
  {
    if ValueExpected(v) && Start(t).Some? then Some(Placed(v, Start(t).value))
    else if v.phase == After && t == Comma then Some(v.(phase := Next))
    else if (v.phase == After || v.phase == First) && t == Closing(v.record) then Some(v.(phase := Closed))
    else if v.record && (v.phase == First || v.phase == Next) && t.StringToken? then
      Some(v.(phase := AwaitColon(Key(t.text, t.bytes))))
    else if v.phase.AwaitColon? && t == Colon then Some(v.(phase := AwaitValue(v.phase.key)))
    else None
  }

  function WithLast(v: Json, w: Json): Json
    requires Open(v) && v.entries != []
  {
    v.(entries := v.entries[..|v.entries| - 1] + [v.entries[|v.entries| - 1].(value := w)])
  }

  function Extend(v: Json, t: Token): Document
    decreases v
  {
    if !Open(v) then None
    else if Innermost(v) then Local(v, t)
    else
      var r := Extend(v.entries[|v.entries| - 1].value, t);
      if r.None? then None else Some(WithLast(v, r.value))
  }

  function Read(doc: Document, t: Token): Document {
    if doc.None? then Start(t) else Extend(doc.value, t)
  }

  lemma StartSpells(t: Token)
    requires Start(t).Some?
    ensures Partial(Start(t).value) && Spell(Start(t).value) == [t]
  {
  }

  /** The entries of the innermost open container are finished. */
  lemma InnermostEntries(v: Json)
    requires Open(v) && Partial(v) && Innermost(v)
    ensures PhaseFits(v.record, |v.entries|, v.phase) && WholeEntries(v.record, v.entries)
  {
    hide Whole, WholeEntry;
    if v.phase == After {
      var n := |v.entries| - 1;
      assert WholeEntry(v.record, v.entries[n]) by { LastWhole(v.record, v.entries[n]); }
      forall i | 0 <= i < |v.entries| ensures WholeEntry(v.record, v.entries[i]) {
        if i < n { assert v.entries[..n][i] == v.entries[i]; }
      }
    }
  }

  lemma LastWhole(record: bool, e: Entry)
    requires (e.tag.Key? <==> record) && Partial(e.value) && !Open(e.value)
    ensures WholeEntry(record, e)
  {
  }

  lemma PushWhole(record: bool, es: seq<Entry>, e: Entry)
    requires WholeEntries(record, es)
    ensures WholeEntry(record, e) ==> WholeEntries(record, es + [e])
    ensures (es + [e])[..|es|] == es
  {
    hide WholeEntry;
  }

  lemma ContainerSpells(v: Json)
    requires v.Container?
    ensures Spell(v) == [Opening(v.record)] + SpellEntries(v.entries) + Ending(v.record, |v.entries|, v.phase)
  {
  }

  lemma EntrySpells(i: nat, e: Entry)
    ensures SpellEntry(i, e) == Separator(i) + SpellTag(e.tag) + Spell(e.value)
  {
  }

  lemma Regroup<T>(opening: seq<T>, entries: seq<T>, separator: seq<T>, tag: seq<T>, value: seq<T>)
    ensures opening + (entries + (separator + tag + value)) + [] == opening + entries + (separator + tag) + value
  {
  }

  lemma PlacedPartial(v: Json, t: Token)
    requires Open(v) && ValueExpected(v) && Start(t).Some? && Partial(Start(t).value)
    requires PhaseFits(v.record, |v.entries|, v.phase) && WholeEntries(v.record, v.entries)
    ensures Partial(Placed(v, Start(t).value))
  {
    hide Whole, WholeEntry, WholeEntries, Start;
    var e := Entry(if v.record then v.phase.key else Position, Start(t).value);
    PushWhole(v.record, v.entries, e);
  }

  lemma PlacedSpells(v: Json, t: Token)
    requires Open(v) && ValueExpected(v) && Start(t).Some?
    requires PhaseFits(v.record, |v.entries|, v.phase) && WholeEntries(v.record, v.entries)
    ensures var w := Placed(v, Start(t).value); Partial(w) && Spell(w) == Spell(v) + [t]
  {
    hide Whole, WholeEntry, WholeEntries, Spell, SpellEntries, SpellEntry, Partial, Start, Separator, SpellTag;
    var e := Entry(if v.record then v.phase.key else Position, Start(t).value);
    StartSpells(t);
    PlacedPartial(v, t);
    PushEntry(v.entries, e);
    ContainerSpells(v);
    ContainerSpells(Placed(v, e.value));
    EntrySpells(|v.entries|, e);
    EndsWithTag(v, e.tag);
    Regroup([Opening(v.record)], SpellEntries(v.entries), Separator(|v.entries|), SpellTag(e.tag), [t]);
  }

  lemma EndsWithTag(v: Json, tag: Tag)
    requires Open(v)
    requires ValueExpected(v)
    requires PhaseFits(v.record, |v.entries|, v.phase)
    requires tag == if v.record then v.phase.key else Position
    ensures Ending(v.record, |v.entries|, v.phase) == Separator(|v.entries|) + SpellTag(tag)
  {
  }

  /** A token that starts no value changes only how the container ends. */
  lemma MovedEnding(v: Json, t: Token, w: Json)
    requires Open(v) && PhaseFits(v.record, |v.entries|, v.phase)
    requires !(ValueExpected(v) && Start(t).Some?) && Local(v, t) == Some(w)
    ensures w == v.(phase := w.phase)
    ensures Ending(v.record, |v.entries|, w.phase) == Ending(v.record, |v.entries|, v.phase) + [t]
  {
    hide Start;
  }

  lemma LocalSpells(v: Json, t: Token)
    requires Open(v) && Partial(v) && Innermost(v) && Local(v, t).Some?
    ensures Partial(Local(v, t).value) && Spell(Local(v, t).value) == Spell(v) + [t]
  {
    InnermostEntries(v);
    hide *;
    if ValueExpected(v) && Start(t).Some? {
      PlacedSpells(v, t);
      PlacedLocal(v, t);
    } else {
      var w := Local(v, t).value;
      MovedPartial(v, t, w);
      MovedEnding(v, t, w);
      ContainerSpells(v);
      ContainerSpells(w);
      assert [Opening(v.record)] + SpellEntries(v.entries) + (Ending(v.record, |v.entries|, v.phase) + [t]) ==
        [Opening(v.record)] + SpellEntries(v.entries) + Ending(v.record, |v.entries|, v.phase) + [t];
    }
  }

  lemma PlacedLocal(v: Json, t: Token)
    requires Open(v) && ValueExpected(v) && Start(t).Some?
    ensures Local(v, t) == Some(Placed(v, Start(t).value))
  {
  }

  lemma MovedPartial(v: Json, t: Token, w: Json)
    requires Open(v) && PhaseFits(v.record, |v.entries|, v.phase) && WholeEntries(v.record, v.entries)
    requires !(ValueExpected(v) && Start(t).Some?) && Local(v, t) == Some(w)
    ensures Partial(w)
  {
    hide WholeEntry, WholeEntries, Start;
  }

  lemma WithLastSpells(v: Json, w: Json, t: Token)
    requires Open(v) && v.phase == After && v.entries != [] && Partial(v) && Partial(w)
    requires Spell(w) == Spell(v.entries[|v.entries| - 1].value) + [t]
    ensures Partial(WithLast(v, w)) && Spell(WithLast(v, w)) == Spell(v) + [t]
  {
    hide Whole, WholeEntry, WholeEntries, Spell, SpellEntries, SpellEntry, Partial;
    var es, n := v.entries, |v.entries| - 1;
    WithLastPartial(v, w);
    PushEntry(es[..n], es[n].(value := w));
    PushEntry(es[..n], es[n]);
    assert es[..n] + [es[n]] == es;
    ContainerSpells(v);
    ContainerSpells(WithLast(v, w));
    EntrySpells(n, es[n]);
    EntrySpells(n, es[n].(value := w));
  }

  lemma WithLastPartial(v: Json, w: Json)
    requires Open(v) && v.phase == After && v.entries != [] && Partial(v) && Partial(w)
    ensures Partial(WithLast(v, w))
  {
    hide Whole, WholeEntry, WholeEntries;
    var n := |v.entries| - 1;
    assert WithLast(v, w).entries[..n] == v.entries[..n];
  }

  /** What is read is spelled by what it is read into. */
  lemma {:induction false} ExtendSpells(v: Json, t: Token)
    requires Partial(v) && Extend(v, t).Some?
    ensures Partial(Extend(v, t).value) && Spell(Extend(v, t).value) == Spell(v) + [t]
    decreases v
  {
    hide Spell, WithLast, Local;
    if Innermost(v) {
      LocalSpells(v, t);
    } else {
      var last := v.entries[|v.entries| - 1].value;
      ExtendSpells(last, t);
      WithLastSpells(v, Extend(last, t).value, t);
    }
  }

  lemma ReadSpells(doc: Document, t: Token)
    requires Sound(doc) && Read(doc, t).Some?
    ensures Sound(Read(doc, t)) && Spelled(Read(doc, t)) == Spelled(doc) + [t]
  {
    if doc.None? { StartSpells(t); } else { ExtendSpells(doc.value, t); }
  }

  // ---- unreading the last token ----

  /** The document before its last token was read. */
  ghost function Drop(w: Json): Document
    requires Partial(w)
    decreases w
  {
    match w
    case Scalar(_) => None
    case Container(record, es, phase) =>
      match phase
      case Closed => Some(w.(phase := if es == [] then First else After))
      case First => None
      case Next => Some(w.(phase := After))
      case AwaitColon(_) => Some(w.(phase := if es == [] then First else Next))
      case AwaitValue(key) => Some(w.(phase := AwaitColon(key)))
      case After =>
        var n := |es| - 1;
        var before := Drop(es[n].value);
        if before.Some? then Some(WithLast(w, before.value))
        else
          Some(w.(entries :=
            es[..n], phase := if record then AwaitValue(es[n].tag) else if n == 0 then First else Next))
  }

  lemma StartOpening(w: Json)
    requires Partial(w) && (w.Scalar? || w.phase == First)
    ensures Start(if w.Scalar? then w.token else Opening(w.record)) == Some(w)
  {
  }

  lemma WholePartial(v: Json)
    requires Whole(v)
    ensures Partial(v) && !Open(v)
  {
  }

  lemma LastEntry(record: bool, es: seq<Entry>)
    requires WholeEntries(record, es) && es != []
    ensures var last := es[|es| - 1];
      (last.tag.Key? <==> record) && Whole(last.value) && Partial(last.value) && !Open(last.value)
    ensures WholeEntries(record, es[..|es| - 1])
  {
    assert WholeEntry(record, es[|es| - 1]);
  }

  /** Of a container that did not just finish a value. */
  lemma DropLocal(w: Json) returns (t: Token)
    requires Partial(w) && w.Container? && w.phase != First && w.phase != After
    ensures Sound(Drop(w)) && Read(Drop(w), t) == Some(w)
  {
    if w.entries != [] { LastEntry(w.record, w.entries); }
    t := match w.phase
      case Closed => Closing(w.record)
      case Next => Comma
      case AwaitColon(key) => KeyToken(key)
      case AwaitValue(_) => Colon
      case _ => End;
    hide WholeEntries, Whole;
  }

  /** A container without its last entry. */
  lemma InitPartial(w: Json)
    requires Partial(w) && Open(w) && w.phase == After
    ensures var n := |w.entries| - 1;
      n >= 0 && WholeEntries(w.record, w.entries[..n]) && (w.entries[n].tag.Key? <==> w.record)
        && (n > 0 ==> !Open(w.entries[..n][n - 1].value))
  {
    hide WholeEntries;
    var n := |w.entries| - 1;
    if n > 0 { LastEntry(w.record, w.entries[..n]); }
  }

  /** The tag of the last entry of a record, read before its value. */
  ghost function Before(w: Json): Json
    requires Open(w) && w.entries != []
  {
    var n := |w.entries| - 1;
    w.(entries :=
      w.entries[..n], phase := if w.record then AwaitValue(w.entries[n].tag) else if n == 0 then First else Next)
  }

  lemma BeforePartial(w: Json)
    requires Partial(w) && Open(w) && w.phase == After
    ensures Open(Before(w)) && Partial(Before(w)) && Innermost(Before(w)) && ValueExpected(Before(w))
  {
    InitPartial(w);
    hide WholeEntries, Whole;
  }

  lemma DropIsBefore(w: Json)
    requires Partial(w)
    requires Open(w)
    requires w.phase == After
    requires Partial(w.entries[|w.entries| - 1].value)
    requires Drop(w.entries[|w.entries| - 1].value) == None
    ensures Drop(w) == Some(Before(w))
  {
    hide Partial, Whole;
  }

  lemma PlacedBefore(w: Json, v: Json)
    requires Open(w) && w.phase == After && w.entries != [] && (w.entries[|w.entries| - 1].tag.Key? <==> w.record)
    requires v == w.entries[|w.entries| - 1].value && Open(Before(w)) && ValueExpected(Before(w))
    ensures Placed(Before(w), v) == w
  {
    var n := |w.entries| - 1;
    assert w.entries[..n] + [w.entries[n]] == w.entries;
  }

  lemma ReadAtInnermost(v: Json, t: Token)
    requires Open(v) && Innermost(v)
    ensures Read(Some(v), t) == Local(v, t)
  {
  }

  /** A container that just read the first token of its last value. */
  lemma DropValue(w: Json, t: Token)
    requires Partial(w)
    requires w.Container?
    requires Open(w)
    requires w.phase == After
    requires w.entries != []
    requires Partial(w.entries[|w.entries| - 1].value)
    requires Start(t) == Some(w.entries[|w.entries| - 1].value)
    requires Drop(w.entries[|w.entries| - 1].value) == None
    ensures Sound(Drop(w)) && Read(Drop(w), t) == Some(w)
  {
    hide *;
    InitPartial(w);
    BeforePartial(w);
    DropIsBefore(w);
    PlacedBefore(w, w.entries[|w.entries| - 1].value);
    PlacedLocal(Before(w), t);
    ReadAtInnermost(Before(w), t);
    SoundSome(Before(w));
  }

  lemma SoundSome(v: Json)
    ensures Sound(Some(v)) <==> Partial(v)
  {
  }

  lemma {:induction false} DropReads(w: Json) returns (t: Token)
    requires Partial(w)
    ensures Sound(Drop(w)) && Read(Drop(w), t) == Some(w)
    decreases w
  {
    if w.Scalar? || w.phase == First {
      StartOpening(w);
      t := if w.Scalar? then w.token else Opening(w.record);
    } else if w.phase == After {
      var n := |w.entries| - 1;
      var last := w.entries[n].value;
      t := DropReads(last);
      if Drop(last).None? {
        DropValue(w, t);
      } else {
        DropInside(w, Drop(last).value, t);
      }
    } else {
      t := DropLocal(w);
    }
  }

  lemma DropInside(w: Json, u: Json, t: Token)
    requires Partial(w)
    requires Open(w)
    requires w.phase == After
    requires Partial(u)
    requires Extend(u, t) == Some(w.entries[|w.entries| - 1].value)
    ensures Partial(WithLast(w, u)) && Extend(WithLast(w, u), t) == Some(w)
  {
    var n := |w.entries| - 1;
    WithLastPartial(w, u);
    hide Partial, Local;
    assert WithLast(w, u).entries[..n] == w.entries[..n];
    assert w.entries[..n] + [w.entries[n]] == w.entries;
  }

  lemma DropSpells(w: Json) returns (t: Token)
    requires Partial(w)
    ensures Sound(Drop(w)) && Read(Drop(w), t) == Some(w) && Spell(w) == Spelled(Drop(w)) + [t]
  {
    t := DropReads(w);
    ReadSpells(Drop(w), t);
  }

  /** The grammar is unambiguous: the tokens determine the document, finished or not. */
  lemma {:induction false} SpellInjective(a: Json, b: Json)
    requires Partial(a) && Partial(b) && Spell(a) == Spell(b)
    ensures a == b
    decreases |Spell(a)|
  {
    hide *;
    var s := DropSpells(a);
    var t := DropSpells(b);
    var x, y := Drop(a), Drop(b);
    assert s == Spell(a)[|Spell(a)| - 1] == t;
    assert Spelled(x) == Spell(a)[..|Spell(a)| - 1] == Spelled(y);
    SpelledEmpty(x);
    SpelledEmpty(y);
    if x.Some? { SpelledSome(x, y); SpellInjective(x.value, y.value); }
  }

  lemma SpelledEmpty(doc: Document)
    ensures Spelled(doc) == [] <==> doc.None?
  {
  }

  lemma SpelledSome(x: Document, y: Document)
    requires x.Some? && y.Some? && Sound(x) && Sound(y)
    ensures Spelled(x) == Spell(x.value) && Spelled(y) == Spell(y.value) && Partial(x.value) && Partial(y.value)
  {
  }

  lemma SpelledInjective(a: Document, b: Document)
    requires Sound(a) && Sound(b) && Spelled(a) == Spelled(b)
    ensures a == b
  {
    hide *;
    SpelledEmpty(a);
    SpelledEmpty(b);
    if a.Some? { SpelledSome(a, b); SpellInjective(a.value, b.value); }
  }

  /** Only one token sequence continuation leads to a longer document: reading is complete. */
  lemma ReadComplete(doc: Document, t: Token, w: Json)
    requires Sound(doc) && Partial(w) && Spell(w) == Spelled(doc) + [t]
    ensures Read(doc, t) == Some(w)
  {
    hide *;
    var s := DropSpells(w);
    assert s == Spell(w)[|Spell(w)| - 1] == t;
    assert Spelled(Drop(w)) == Spell(w)[..|Spell(w)| - 1] == Spelled(doc);
    SpelledInjective(Drop(w), doc);
  }

  // ---- the innermost open container ----

  function InnermostOf(v: Json): (r: Json)
    requires Open(v)
    ensures Open(r) && Innermost(r)
    decreases v
  {
    if Innermost(v) then v else InnermostOf(v.entries[|v.entries| - 1].value)
  }

  lemma {:induction false} InnermostPartial(v: Json)
    requires Open(v) && Partial(v)
    ensures Partial(InnermostOf(v))
    decreases v
  {
    if !Innermost(v) { InnermostPartial(v.entries[|v.entries| - 1].value); }
  }

  lemma {:induction false} ExtendIsLocal(v: Json, t: Token)
    requires Open(v)
    ensures Extend(v, t).Some? <==> Local(InnermostOf(v), t).Some?
    decreases v
  {
    hide Local;
    if !Innermost(v) { ExtendIsLocal(v.entries[|v.entries| - 1].value, t); }
  }

  /** No document contains an end or an invalid token. */
  lemma NothingReads(doc: Document)
    ensures Read(doc, End).None? && Read(doc, Invalid).None?
  {
    if doc.Some? && Open(doc.value) {
      ExtendIsLocal(doc.value, End);
      ExtendIsLocal(doc.value, Invalid);
    }
  }

  // ---- what a document costs ----

  /** How many values occur, finished or not. */
  ghost function Values(v: Json): nat
    decreases v, 0
  {
    match v
    case Scalar(_) => 1
    case Container(_, es, _) => 1 + ValuesIn(es)
  }

  ghost function ValuesIn(es: seq<Entry>): nat
    decreases es, 1
  {
    if es == [] then 0 else ValuesIn(es[..|es| - 1]) + ValuesOf(es[|es| - 1])
  }

  ghost function ValuesOf(e: Entry): nat
    decreases e, 0
  {
    Values(e.value)
  }

  function TokenBytes(t: Token): nat { if t.StringToken? then t.bytes else 0 }

  ghost function TagBytes(tag: Tag): nat { if tag.Key? then tag.bytes else 0 }

  /** The UTF-8 bytes of all strings and names. */
  ghost function TextBytes(v: Json): nat
    decreases v, 0
  {
    match v
    case Scalar(t) => TokenBytes(t)
    case Container(_, es, phase) => TextBytesIn(es) + if Pending(phase) then TagBytes(phase.key) else 0
  }

  ghost function TextBytesIn(es: seq<Entry>): nat
    decreases es, 1
  {
    if es == [] then 0 else TextBytesIn(es[..|es| - 1]) + TextBytesOf(es[|es| - 1])
  }

  ghost function TextBytesOf(e: Entry): nat
    decreases e, 0
  {
    TagBytes(e.tag) + TextBytes(e.value)
  }

  /** How deeply containers nest. */
  ghost function Depth(v: Json): nat
    decreases v, 0
  {
    match v
    case Scalar(_) => 0
    case Container(_, es, _) => 1 + DepthIn(es)
  }

  ghost function DepthIn(es: seq<Entry>): nat
    decreases es, 1
  {
    if es == [] then 0 else Max(DepthIn(es[..|es| - 1]), DepthOf(es[|es| - 1]))
  }

  ghost function DepthOf(e: Entry): nat
    decreases e, 0
  {
    Depth(e.value)
  }

  lemma PushCosts(es: seq<Entry>, e: Entry)
    ensures ValuesIn(es + [e]) == ValuesIn(es) + ValuesOf(e)
    ensures TextBytesIn(es + [e]) == TextBytesIn(es) + TextBytesOf(e)
    ensures DepthIn(es + [e]) == Max(DepthIn(es), DepthOf(e))
  {
    assert (es + [e])[..|es|] == es;
  }

  /** How many containers are open. */
  ghost function Nesting(v: Json): nat
    decreases v
  {
    if !Open(v) then 0 else if Innermost(v) then 1 else 1 + Nesting(v.entries[|v.entries| - 1].value)
  }

  ghost function NestingOf(doc: Document): nat { if doc.Some? then Nesting(doc.value) else 0 }

  ghost predicate StartsValue(doc: Document, t: Token) {
    Start(t).Some? && (doc.Some? ==> Open(doc.value) && ValueExpected(InnermostOf(doc.value)))
  }

  predicate Opens(t: Token) { t == ObjectStart || t == ArrayStart }

  /** What reading t from v to w adds; the container read into is the level-th. */
  ghost predicate Costs(v: Json, t: Token, w: Json, value: bool, level: nat) {
    && Values(w) == Values(v) + (if value then 1 else 0)
    && TextBytes(w) == TextBytes(v) + TokenBytes(t)
    && Depth(w) == if value && Opens(t) then Max(Depth(v), level + 1) else Depth(v)
  }

  lemma StartCosts(t: Token)
    requires Start(t).Some?
    ensures var w := Start(t).value;
      Values(w) == 1 && TextBytes(w) == TokenBytes(t) && Depth(w) == if Opens(t) then 1 else 0
  {
  }

  lemma ContainerCosts(v: Json)
    requires v.Container?
    ensures Values(v) == 1 + ValuesIn(v.entries) && Depth(v) == 1 + DepthIn(v.entries)
    ensures TextBytes(v) == TextBytesIn(v.entries) + if Pending(v.phase) then TagBytes(v.phase.key) else 0
  {
  }

  lemma EntryCosts(e: Entry)
    ensures ValuesOf(e) == Values(e.value)
    ensures TextBytesOf(e) == TagBytes(e.tag) + TextBytes(e.value)
    ensures DepthOf(e) == Depth(e.value)
  {
  }

  lemma PlacedCosts(v: Json, t: Token)
    requires Open(v) && ValueExpected(v) && Start(t).Some?
    ensures Costs(v, t, Placed(v, Start(t).value), true, 1)
  {
    hide Values, ValuesIn, ValuesOf, TextBytes, TextBytesIn, TextBytesOf, Depth, DepthIn, DepthOf, Start;
    var e := Entry(if v.record then v.phase.key else Position, Start(t).value);
    StartCosts(t);
    PushCosts(v.entries, e);
    EntryCosts(e);
    ContainerCosts(v);
    ContainerCosts(Placed(v, Start(t).value));
  }

  lemma MovedCosts(v: Json, t: Token, w: Json)
    requires Open(v) && PhaseFits(v.record, |v.entries|, v.phase)
    requires !(ValueExpected(v) && Start(t).Some?) && Local(v, t) == Some(w)
    ensures Costs(v, t, w, false, 1)
  {
    hide Values, ValuesIn, ValuesOf, TextBytes, TextBytesIn, TextBytesOf, Depth, DepthIn, DepthOf;
    ContainerCosts(v);
    ContainerCosts(w);
  }

  lemma LocalCosts(v: Json, t: Token)
    requires Open(v) && Partial(v) && Innermost(v) && Local(v, t).Some?
    ensures Costs(v, t, Local(v, t).value, Start(t).Some? && ValueExpected(v), 1)
  {
    hide *;
    PendingKeys(v);
    if ValueExpected(v) && Start(t).Some? {
      PlacedCosts(v, t);
      PlacedLocal(v, t);
    } else {
      MovedCosts(v, t, Local(v, t).value);
    }
  }

  lemma PendingKeys(v: Json)
    requires Open(v) && Partial(v)
    ensures PhaseFits(v.record, |v.entries|, v.phase)
  {
  }

  lemma WithLastCosts(v: Json, t: Token, w: Json, value: bool, level: nat)
    requires Open(v)
    requires v.phase == After
    requires v.entries != []
    requires Costs(v.entries[|v.entries| - 1].value, t, w, value, level)
    ensures Costs(v, t, WithLast(v, w), value, level + 1)
  {
    var n := |v.entries| - 1;
    assert v.entries[..n] + [v.entries[n]] == v.entries;
    PushCosts(v.entries[..n], v.entries[n]);
    PushCosts(v.entries[..n], v.entries[n].(value := w));
  }

  lemma {:induction false} ExtendCosts(v: Json, t: Token)
    requires Partial(v) && Open(v) && Extend(v, t).Some?
    ensures Costs(v, t, Extend(v, t).value, Start(t).Some? && ValueExpected(InnermostOf(v)), Nesting(v))
    decreases v
  {
    hide Costs, Local, ValueExpected, Start, WithLast;
    if Innermost(v) {
      LocalCosts(v, t);
    } else {
      var last := v.entries[|v.entries| - 1].value;
      ExtendCosts(last, t);
      WithLastCosts(v, t, Extend(last, t).value, Start(t).Some? && ValueExpected(InnermostOf(v)), Nesting(last));
    }
  }

  ghost function ValuesSoFar(doc: Document): nat { if doc.Some? then Values(doc.value) else 0 }
  ghost function BytesSoFar(doc: Document): nat { if doc.Some? then TextBytes(doc.value) else 0 }
  ghost function DepthSoFar(doc: Document): nat { if doc.Some? then Depth(doc.value) else 0 }

  /** What one more token adds to the counts. */
  lemma ReadCosts(doc: Document, t: Token)
    requires Sound(doc) && Read(doc, t).Some?
    ensures var w := Read(doc, t);
      && ValuesSoFar(w) == ValuesSoFar(doc) + (if StartsValue(doc, t) then 1 else 0)
      && BytesSoFar(w) == BytesSoFar(doc) + TokenBytes(t)
      && DepthSoFar(w) ==
        if StartsValue(doc, t) && Opens(t) then Max(DepthSoFar(doc), NestingOf(doc) + 1) else DepthSoFar(doc)
  {
    hide Values, TextBytes, Depth, Start, Partial, Extend;
    if doc.None? { StartCosts(t); } else { ExtendOpen(doc.value, t); ExtendCosts(doc.value, t); }
  }

  lemma ExtendOpen(v: Json, t: Token)
    requires Extend(v, t).Some?
    ensures Open(v)
  {
  }

  lemma {:induction false} NestingWithin(v: Json)
    ensures Nesting(v) <= Depth(v)
    decreases v
  {
    if Open(v) && !Innermost(v) {
      NestingWithin(v.entries[|v.entries| - 1].value);
      assert Depth(v) == 1 + DepthIn(v.entries) && DepthIn(v.entries) >= DepthOf(v.entries[|v.entries| - 1]);
    }
  }

  ghost predicate NoMore(a: Document, b: Document) {
    ValuesSoFar(a) <= ValuesSoFar(b) && BytesSoFar(a) <= BytesSoFar(b) && DepthSoFar(a) <= DepthSoFar(b)
  }

  lemma NoMoreSteps(a: Document, b: Document, c: Document)
    requires NoMore(a, b) && NoMore(b, c)
    ensures NoMore(a, c)
  {
  }

  lemma NoMoreSelf(a: Document)
    ensures NoMore(a, a)
  {
  }

  lemma NoMoreRead(doc: Document, t: Token)
    requires Sound(doc) && Read(doc, t).Some?
    ensures NoMore(doc, Read(doc, t))
  {
    hide ValuesSoFar, BytesSoFar, DepthSoFar, Read, StartsValue, Sound;
    ReadCosts(doc, t);
  }

  /** Every prefix of a document's tokens is spelled by a document, which costs no more. */
  lemma {:induction false} PrefixSpelled(w: Document, k: nat) returns (doc: Document)
    requires Sound(w) && k <= |Spelled(w)|
    ensures Sound(doc) && Spelled(doc) == Spelled(w)[..k] && NoMore(doc, w)
    decreases |Spelled(w)| - k
  {
    hide *;
    if k == |Spelled(w)| {
      doc := w;
      assert Spelled(w)[..k] == Spelled(w);
      NoMoreSelf(w);
    } else {
      SpelledEmpty(w);
      SpelledSome(w, w);
      var t := DropSpells(w.value);
      var u := Drop(w.value);
      doc := PrefixSpelled(u, k);
      assert Spelled(w)[..k] == Spelled(u)[..k];
      NoMoreRead(u, t);
      NoMoreSteps(doc, u, w);
    }
  }

}
