/** Where the parts of a container stand among its tokens, and how brackets balance. */
module JsonLayout {
  import opened Sequences
  import opened JsonTree

  // ---- offsets ----

  /** Where entry i starts; past the last entry, where the ending starts. */
  ghost function At(v: Json, i: nat): nat
    requires v.Container? && i <= |v.entries|
  {
    1 + |SpellEntries(v.entries[..i])|
  }

  ghost function KeyAt(v: Json, i: nat): nat
    requires v.Container? && i < |v.entries|
  {
    At(v, i) + |Separator(i)|
  }

  ghost function ValueAt(v: Json, i: nat): nat
    requires v.Container? && i < |v.entries|
  {
    KeyAt(v, i) + |SpellTag(v.entries[i].tag)|
  }

  lemma NextAt(v: Json, i: nat)
    requires v.Container? && i < |v.entries|
    ensures At(v, i + 1) == ValueAt(v, i) + |Spell(v.entries[i].value)|
    ensures SpellEntries(v.entries[..i + 1]) == SpellEntries(v.entries[..i]) + SpellEntry(i, v.entries[i])
  {
    assert v.entries[..i + 1] == v.entries[..i] + [v.entries[i]];
    PushEntry(v.entries[..i], v.entries[i]);
    EntrySpells(i, v.entries[i]);
  }

  /** The entries before the i-th are spelled first. */
  lemma {:induction false} EntriesPrefix(v: Json, i: nat)
    requires v.Container? && i <= |v.entries|
    ensures At(v, i) <= 1 + |SpellEntries(v.entries)|
    ensures SpellEntries(v.entries)[..At(v, i) - 1] == SpellEntries(v.entries[..i])
    decreases |v.entries| - i
  {
    hide SpellEntries, SpellEntry;
    if i == |v.entries| {
      assert v.entries[..i] == v.entries;
    } else {
      EntriesPrefix(v, i + 1);
      NextAt(v, i);
    }
  }

  ghost predicate Holds(s: seq<Token>, at: nat, part: seq<Token>) {
    at + |part| <= |s| && s[at..at + |part|] == part
  }

  lemma HoldsParts(s: seq<Token>, at: nat, a: seq<Token>, b: seq<Token>)
    requires Holds(s, at, a + b)
    ensures Holds(s, at, a) && Holds(s, at + |a|, b)
  {
    var part := s[at..at + |a + b|];
    assert a == part[..|a|] && b == part[|a|..];
    assert s[at..at + |a|] == part[..|a|];
    assert s[at + |a|..at + |a| + |b|] == part[|a|..];
  }

  lemma HoldsOne(s: seq<Token>, at: nat, t: Token)
    requires Holds(s, at, [t])
    ensures at < |s| && s[at] == t
  {
    assert s[at..at + 1][0] == t;
  }

  /** The tokens of a container around its i-th entry. */
  lemma EntryLayout(v: Json, i: nat)
    requires v.Container? && i < |v.entries|
    ensures Holds(Spell(v), At(v, i), Separator(i)) && Holds(Spell(v), KeyAt(v, i), SpellTag(v.entries[i].tag))
    ensures Holds(Spell(v), ValueAt(v, i), Spell(v.entries[i].value))
    ensures At(v, i + 1) == ValueAt(v, i) + |Spell(v.entries[i].value)| <= |Spell(v)|
  {
    hide SpellEntries, SpellEntry, Spell, Separator, SpellTag;
    ContainerSpells(v);
    EntriesPrefix(v, i + 1);
    NextAt(v, i);
    EntrySpells(i, v.entries[i]);
    var all, e := SpellEntries(v.entries), v.entries[i];
    assert Holds(all, At(v, i) - 1, SpellEntry(i, e)) by {
      assert all[..At(v, i + 1) - 1][At(v, i) - 1..] == SpellEntry(i, e);
    }
    Shifted([Opening(v.record)], all, Ending(v.record, |v.entries|, v.phase), At(v, i) - 1, SpellEntry(i, e));
    HoldsParts(Spell(v), At(v, i), Separator(i) + SpellTag(e.tag), Spell(e.value));
    HoldsParts(Spell(v), At(v, i), Separator(i), SpellTag(e.tag));
  }

  lemma Shifted(a: seq<Token>, b: seq<Token>, c: seq<Token>, at: nat, part: seq<Token>)
    requires Holds(b, at, part)
    ensures Holds(a + b + c, |a| + at, part)
  {
    assert (a + b + c)[|a| + at..|a| + at + |part|] == b[at..at + |part|];
  }

  /** The tokens of a container around its ends. */
  lemma ContainerLayout(v: Json)
    requires v.Container?
    ensures |Spell(v)| > 0 && Spell(v)[0] == Opening(v.record) && At(v, 0) == 1
    ensures At(v, |v.entries|) + |Ending(v.record, |v.entries|, v.phase)| == |Spell(v)|
    ensures Spell(v)[At(v, |v.entries|)..] == Ending(v.record, |v.entries|, v.phase)
  {
    hide SpellEntry;
    ContainerSpells(v);
    assert v.entries[..|v.entries|] == v.entries;
    assert v.entries[..0] == [];
  }

  // ---- brackets ----

  predicate Closes(t: Token) { t == ObjectEnd || t == ArrayEnd }

  ghost function Bracket(t: Token): int { if Opens(t) then 1 else if Closes(t) then -1 else 0 }

  lemma LocalNesting(v: Json, t: Token)
    requires Open(v) && Innermost(v) && Local(v, t).Some?
    ensures Nesting(Local(v, t).value) == 1 + Bracket(t)
  {
    hide Partial;
    if ValueExpected(v) && Start(t).Some? {
      PlacedLocal(v, t);
      assert Nesting(Start(t).value) == Bracket(t);
    }
  }

  lemma {:induction false} ExtendNesting(v: Json, t: Token)
    requires Open(v) && Extend(v, t).Some?
    ensures Nesting(Extend(v, t).value) == Nesting(v) + Bracket(t)
    decreases v
  {
    hide Local;
    if Innermost(v) {
      LocalNesting(v, t);
    } else {
      var last := v.entries[|v.entries| - 1].value;
      ExtendNesting(last, t);
      NestingWithLast(v, Extend(last, t).value);
    }
  }

  lemma NestingWithLast(v: Json, w: Json)
    requires Open(v) && v.phase == After && v.entries != []
    ensures Nesting(WithLast(v, w)) == 1 + Nesting(w)
  {
    assert WithLast(v, w).entries[|v.entries| - 1].value == w;
  }

  /** The nesting of a document is the number of its brackets still open. */
  lemma ReadNesting(doc: Document, t: Token)
    requires Read(doc, t).Some?
    ensures NestingOf(Read(doc, t)) == NestingOf(doc) + Bracket(t)
  {
    hide Nesting, Start;
    if doc.None? { StartNesting(t); } else { ExtendOpen(doc.value, t); ExtendNesting(doc.value, t); }
  }

  lemma StartNesting(t: Token)
    requires Start(t).Some?
    ensures Nesting(Start(t).value) == Bracket(t)
  {
  }

  /** A proper prefix of a value is a document that is still open; the whole tokens are the value itself. */
  lemma ValuePrefix(v: Json, k: nat) returns (doc: Document)
    requires Partial(v) && 0 < k <= |Spell(v)|
    ensures Sound(doc) && doc.Some? && Spelled(doc) == Spell(v)[..k] && NoMore(doc, Some(v))
    ensures k == |Spell(v)| <==> doc == Some(v)
    ensures k < |Spell(v)| ==> Open(doc.value) && NestingOf(doc) > 0 && Read(doc, Spell(v)[k]).Some?
    ensures k < |Spell(v)| ==> Spelled(Read(doc, Spell(v)[k])) == Spell(v)[..k + 1]
  {
    hide Partial, Spell, Nesting, Extend, Start;
    doc := PrefixSpelled(Some(v), k);
    SpelledEmpty(doc);
    if k == |Spell(v)| {
      assert Spell(v)[..k] == Spell(v);
      SpellInjective(doc.value, v);
    } else {
      var next := PrefixSpelled(Some(v), k + 1);
      SpelledEmpty(next);
      assert Spell(v)[..k + 1] == Spell(v)[..k] + [Spell(v)[k]];
      ReadComplete(doc, Spell(v)[k], next.value);
      ExtendOpen(doc.value, Spell(v)[k]);
      OpenNests(doc.value);
    }
  }

  lemma OpenNests(v: Json)
    ensures Open(v) <==> Nesting(v) > 0
  {
  }

  /** Values nest no deeper than their parts reach. */
  lemma NestingLimit(doc: Document, v: Json)
    requires NoMore(doc, Some(v))
    ensures NestingOf(doc) <= Depth(v)
  {
    if doc.Some? { NestingWithin(doc.value); }
  }

  // ---- the value in a stretch of tokens ----

  ghost predicate Stretch(tokens: seq<Token>, start: nat, end: nat, v: Json) {
    start <= end <= |tokens| && Partial(v) && tokens[start..end] == Spell(v)
  }

  ghost predicate HasTree(tokens: seq<Token>, start: nat, end: nat) {
    exists v :: Stretch(tokens, start, end, v)
  }

  /** The one value, finished or not, that these tokens spell. */
  ghost function TreeOf(tokens: seq<Token>, start: nat, end: nat): (v: Json)
    requires HasTree(tokens, start, end)
    ensures Stretch(tokens, start, end, v)
  {
    var v :| Stretch(tokens, start, end, v);
    v
  }

  lemma TreeIs(tokens: seq<Token>, start: nat, end: nat, v: Json)
    requires Stretch(tokens, start, end, v)
    ensures HasTree(tokens, start, end) && TreeOf(tokens, start, end) == v
  {
    hide Spell, Partial;
    SpellInjective(TreeOf(tokens, start, end), v);
  }

  /** Where a value of a stretch stands in all tokens. */
  lemma InnerStretch(tokens: seq<Token>, start: nat, end: nat, part: seq<Token>, at: nat)
    requires start <= end <= |tokens| && Holds(tokens[start..end], at, part)
    ensures start + at + |part| <= end && tokens[start + at..start + at + |part|] == part
  {
    var s := tokens[start..end];
    var a, b := s[at..at + |part|], tokens[start + at..start + at + |part|];
    forall k | 0 <= k < |part| ensures a[k] == b[k] { assert s[at + k] == tokens[start + (at + k)]; }
  }
}
