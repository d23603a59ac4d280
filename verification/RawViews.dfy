/** The lazy views over the documents of a decoded batch, and what is counted through them (raw-admission.ts). */
module RawViews {
  import opened Sequences
  import opened Paths
  import opened JsonTree
  import opened DuplicateNames
  import opened DocumentShape
  import opened RawDocument
  import opened RawView
  import opened RawAdmission
  import opened RawCharges
  import Decimals

  const TOTAL_CAPABILITIES: nat := 65536
  const TOTAL_SLOTS: nat := 65536

  /** The record v has a member called `key` with the value w. */
  ghost predicate HasMember(v: Json, key: string, w: Json) {
    v.Container? && v.record && exists i :: 0 <= i < |v.entries| && Named(v.entries[i], key) && v.entries[i].value == w
  }

  ghost predicate ArrayMember(v: Json, key: string, w: Json) {
    HasMember(v, key, w) && w.Container? && !w.record
  }

  /** How many items the array member called `key` has; nothing counts where there is none. */
  ghost function ItemsAt(v: Json, key: string): nat {
    if exists w :: ArrayMember(v, key, w) then var w :| ArrayMember(v, key, w); |w.entries| else 0
  }

  ghost predicate IsOne(w: Json) { w.Scalar? && w.token.NumberToken? && w.token.verdict == Decimals.Admitted(1) }

  ghost predicate VersionOne(v: Json) { exists w :: HasMember(v, "schemaVersion", w) && IsOne(w) }

  lemma OneMember(v: Json, key: string, w: Json, u: Json)
    requires Decoded(v) && HasMember(v, key, w) && HasMember(v, key, u)
    ensures w == u
  {
    hide Whole, Depth;
    var i :| 0 <= i < |v.entries| && Named(v.entries[i], key) && v.entries[i].value == w;
    var j :| 0 <= j < |v.entries| && Named(v.entries[j], key) && v.entries[j].value == u;
    if i != j { assert v.entries[i].tag.Key? && v.entries[j].tag.Key?; }
  }

  /** What reading the member through the view says of it. */
  lemma AnswerIs(tokens: seq<Token>, spans: map<Handle, Span>, v: Json, key: string, answer: Option<Handle>)
    requires Decoded(v) && v.Container? && v.record && Answers(tokens, spans, v.entries, key, answer)
    ensures answer.None? ==> forall w :: !HasMember(v, key, w)
    ensures answer.Some? ==>
      answer.value in spans && GoodSpan(tokens, spans[answer.value])
        && HasMember(v, key, NodeOf(tokens, spans[answer.value]))
  {
    hide Decoded, GoodSpan, Shown;
    if answer.None? {
      NamesAre(v.entries, key);
    } else {
      var i :|
        0 <= i < |v.entries| && Named(v.entries[i], key) && Stands(tokens, spans, answer.value, v.entries[i].value);
      NodeIs(tokens, spans[answer.value], v.entries[i].value);
    }
  }

  lemma ItemsFound(v: Json, key: string, w: Json)
    requires Decoded(v) && HasMember(v, key, w)
    ensures ItemsAt(v, key) == if w.Container? && !w.record then |w.entries| else 0
  {
    hide Decoded, HasMember;
    forall u | HasMember(v, key, u) ensures u == w { OneMember(v, key, u, w); }
    if w.Container? && !w.record { assert ArrayMember(v, key, w); }
  }

  /** A view whose root stands for v. */
  ghost predicate OpenedOn(view: View?, v: Json)
    reads view
  {
    view != null && view.Valid() && view.root in view.spans && view.Node(view.root) == v
  }

  method ArrayLength(view: View, key: string, ghost v: Json) returns (n: nat)
    requires OpenedOn(view, v)
    modifies view
    ensures OpenedOn(view, v) && n == ItemsAt(v, key)
  {
    hide ItemsAt, HasMember, Answers, Decoded, Whole;
    var kind := view.ReadKind(view.root);
    if kind != Some(RecordKind) {
      NotRecord(v, key);
      return 0;
    }
    ReadRecord(v);
    var member := view.Own(view.root, key);
    AnswerIs(view.tokens, view.spans, v, key, member.value);
    if member.value.None? {
      NoItems(v, key);
      return 0;
    }
    ghost var w := view.Node(member.value.value);
    ItemsFound(v, key, w);
    var held := view.ReadKind(member.value.value);
    if held != Some(ArrayKind) { return 0; }
    var length := view.Length(member.value.value);
    n := length.value;
  }

  lemma NotRecord(v: Json, key: string)
    requires Decoded(v) && KindOf(v) != RecordKind
    ensures ItemsAt(v, key) == 0 && forall w :: !HasMember(v, key, w)
  {
  }

  lemma ReadRecord(v: Json)
    requires Decoded(v) && KindOf(v) == RecordKind
    ensures v.Container? && v.record
  {
  }

  lemma NoItems(v: Json, key: string)
    requires forall w :: !HasMember(v, key, w)
    ensures ItemsAt(v, key) == 0
  {
  }

  /** Whether the document says that its schema version is one. */
  method HasVersionOne(view: View, ghost v: Json) returns (r: bool)
    requires OpenedOn(view, v)
    modifies view
    ensures OpenedOn(view, v) && (r <==> VersionOne(v))
  {
    hide VersionOne, IsOne, HasMember, Answers, Decoded, Whole;
    var kind := view.ReadKind(view.root);
    if kind != Some(RecordKind) {
      NotRecord(v, "schemaVersion");
      NoVersion(v);
      return false;
    }
    ReadRecord(v);
    var member := view.Own(view.root, "schemaVersion");
    AnswerIs(view.tokens, view.spans, v, "schemaVersion", member.value);
    if member.value.None? {
      NoVersion(v);
      return false;
    }
    ghost var w := view.Node(member.value.value);
    VersionIs(v, w);
    var held := view.ReadKind(member.value.value);
    if held != Some(NumberKind) {
      NotNumber(w);
      return false;
    }
    var integer := view.Integer(member.value.value);
    NumberIsOne(w);
    r := integer.value == Decimals.Admitted(1);
  }

  lemma NoVersion(v: Json)
    requires forall w :: !HasMember(v, "schemaVersion", w)
    ensures !VersionOne(v)
  {
  }

  lemma VersionIs(v: Json, w: Json)
    requires Decoded(v) && HasMember(v, "schemaVersion", w)
    ensures VersionOne(v) <==> IsOne(w)
  {
    hide Decoded, HasMember, IsOne;
    forall u | HasMember(v, "schemaVersion", u) ensures u == w { OneMember(v, "schemaVersion", u, w); }
  }

  lemma NotNumber(w: Json)
    requires Decoded(w) && KindOf(w) != NumberKind
    ensures !IsOne(w)
  {
  }

  lemma NumberIsOne(w: Json)
    ensures w.Scalar? && w.token.NumberToken? ==> (IsOne(w) <==> w.token.verdict == Decimals.Admitted(1))
  {
  }

  // ---------- all the views of a batch ----------

  /** `tree` is the value of a decoded document, and absent for the others. */
  ghost predicate DecodedAs(e: RawEntry, scan: RawDocumentScan, tree: Option<Json>) {
    (scan.decoded <==> tree.Some?) && (tree.Some? ==> Decoded(tree.value) && e.tokens == Spell(tree.value))
  }

  ghost predicate BatchDecodedAs(entries: seq<RawEntry>, scans: seq<RawDocumentScan>, trees: seq<Option<Json>>) {
    |scans| == |trees| <= |entries| && forall i :: 0 <= i < |scans| ==> DecodedAs(entries[i], scans[i], trees[i])
  }

  /** Every scanned document that decodes has a value, found between the braces of its tokens. */
  lemma DecodedTree(e: RawEntry, budget: Budget, scan: RawDocumentScan, found: Found) returns (tree: Option<Json>)
    requires Scanned(e.tokens, e.kind, budget, scan, found)
    ensures DecodedAs(e, scan, tree)
  {
    hide Admissible, IsText, Ended, CountsOf, Projected, DepthReported, DuplicatesSoFar, Finished;
    tree := None;
    if scan.decoded {
      var v :| Admissible(e.tokens, v, budget);
      AdmissibleIsDecoded(e.tokens, v, budget);
      tree := Some(v);
    }
  }

  lemma {:induction false} DecodedTrees(entries: seq<RawEntry>, scans: seq<RawDocumentScan>, found: seq<Found>)
    returns (trees: seq<Option<Json>>)
    requires BatchScanned(entries, scans, found)
    ensures BatchDecodedAs(entries, scans, trees)
    decreases |scans|
  {
    hide Scanned, DecodedAs;
    if scans == [] { return []; }
    var n := |scans| - 1;
    forall i | 0 <= i < n ensures ScannedAt(entries, scans[..n], found[..n], i) {
      assert ScannedAt(entries, scans, found, i);
      assert scans[..n][..i] == scans[..i];
    }
    trees := DecodedTrees(entries, scans[..n], found[..n]);
    assert ScannedAt(entries, scans, found, n);
    var last := DecodedTree(entries[n], Left(scans[..n]), scans[n], found[n]);
    trees := trees + [last];
  }

  ghost function TotalItems(trees: seq<Option<Json>>, key: string): nat {
    if trees == [] then 0
    else
      TotalItems(trees[..|trees| - 1], key)
        + if trees[|trees| - 1].Some? then ItemsAt(trees[|trees| - 1].value, key) else 0
  }

  lemma TotalNext(trees: seq<Option<Json>>, i: nat, key: string)
    requires i < |trees|
    ensures TotalItems(trees[..i + 1], key) == TotalItems(trees[..i], key)
      + if trees[i].Some? then ItemsAt(trees[i].value, key) else 0
  {
    assert trees[..i + 1][..i] == trees[..i];
  }

  /** Documents that did not decode have no view; the others each have one of their own. */
  ghost predicate ViewsOf(views: seq<View?>, trees: seq<Option<Json>>)
    reads views
  {
    && |views| == |trees|
    && (forall i :: 0 <= i < |views| ==> (views[i] != null <==> trees[i].Some?))
    && (forall i :: 0 <= i < |views| && views[i] != null && trees[i].Some? ==> OpenedOn(views[i], trees[i].value))
    && (forall i, j :: 0 <= i < j < |views| && views[i] != null ==> views[i] != views[j])
  }

  /** Opens a view on every decoded document; the totals stop counting just above their limits. */
  method CreateRawViews(entries: seq<RawEntry>, scans: seq<RawDocumentScan>, ghost trees: seq<Option<Json>>)
    returns (views: seq<View?>, totalCapabilities: nat, totalSlots: nat)
    requires |scans| == |entries| && BatchDecodedAs(entries, scans, trees)
    ensures ViewsOf(views, trees) && (forall i :: 0 <= i < |views| && views[i] != null ==> fresh(views[i]))
    ensures totalCapabilities == Min(TOTAL_CAPABILITIES + 1, TotalItems(trees, "provides"))
    ensures totalSlots == Min(TOTAL_SLOTS + 1, TotalItems(trees, "slots"))
  {
    hide ItemsAt, TotalItems, OpenedOn, Decoded, Spell, Scanned;
    views, totalCapabilities, totalSlots := [], 0, 0;
    NoTrees(trees, "provides");
    NoTrees(trees, "slots");
    for i := 0 to |entries|
      invariant ViewsOf(views, trees[..i]) && forall j :: 0 <= j < |views| && views[j] != null ==> fresh(views[j])
      invariant totalCapabilities == Min(TOTAL_CAPABILITIES + 1, TotalItems(trees[..i], "provides"))
      invariant totalSlots == Min(TOTAL_SLOTS + 1, TotalItems(trees[..i], "slots"))
    {
      assert DecodedAs(entries[i], scans[i], trees[i]);
      TotalNext(trees, i, "provides");
      TotalNext(trees, i, "slots");
      assert trees[..i + 1] == trees[..i] + [trees[i]];
      if !scans[i].decoded {
        views := views + [null];
        continue;
      }
      var view := OpenView(entries[i].tokens, trees[i].value);
      var capabilities := ArrayLength(view, "provides", trees[i].value);
      totalCapabilities := Min(TOTAL_CAPABILITIES + 1, totalCapabilities + capabilities);
      var slots := ArrayLength(view, "slots", trees[i].value);
      totalSlots := Min(TOTAL_SLOTS + 1, totalSlots + slots);
      views := views + [view];
    }
    assert trees[..|entries|] == trees;
  }

  method OpenView(tokens: seq<Token>, ghost v: Json) returns (view: View)
    requires Decoded(v) && tokens == Spell(v)
    ensures fresh(view) && OpenedOn(view, v)
  {
    view := new View(tokens, v);
  }

  lemma NoTrees(trees: seq<Option<Json>>, key: string)
    ensures TotalItems(trees[..0], key) == 0
  {
  }

  ghost function ValuesIn(trees: seq<Option<Json>>): nat {
    if trees == [] then 0
    else ValuesIn(trees[..|trees| - 1]) + if trees[|trees| - 1].Some? then Values(trees[|trees| - 1].value) else 0
  }

  ghost function BytesIn(trees: seq<Option<Json>>): nat {
    if trees == [] then 0
    else BytesIn(trees[..|trees| - 1]) + if trees[|trees| - 1].Some? then TextBytes(trees[|trees| - 1].value) else 0
  }

  /** The decoded documents hold no more than the batch asks for. */
  lemma {:induction false} TreesAsk(entries: seq<RawEntry>, scans: seq<RawDocumentScan>, trees: seq<Option<Json>>,
                                    n: nat)
    requires BatchDecodedAs(entries, scans, trees) && n <= |trees|
    ensures ValuesIn(trees[..n]) <= ValuesAsked(entries[..n]) && BytesIn(trees[..n]) <= BytesAsked(entries[..n])
  {
    hide Values, TextBytes, PartIn, ValuesSoFar, BytesSoFar, Decoded, Spell;
    if n > 0 {
      TreesAsk(entries, scans, trees, n - 1);
      AskedNext(entries, n - 1);
      assert trees[..n][..n - 1] == trees[..n - 1];
      assert DecodedAs(entries[n - 1], scans[n - 1], trees[n - 1]);
      if trees[n - 1].Some? {
        DecodedText(entries[n - 1], trees[n - 1].value);
        TextPart(entries[n - 1].tokens, trees[n - 1].value);
      }
    }
  }

  lemma DecodedText(e: RawEntry, v: Json)
    requires Decoded(v) && e.tokens == Spell(v)
    ensures IsText(e.tokens, v) && Depth(v) <= JSON_DEPTH
  {
  }

  lemma TreesFit(entries: seq<RawEntry>, scans: seq<RawDocumentScan>, trees: seq<Option<Json>>)
    requires |scans| == |entries| && BatchDecodedAs(entries, scans, trees) && Paid(entries, scans)
    ensures ValuesIn(trees) <= VALUE_LIMIT && BytesIn(trees) <= STRING_LIMIT
  {
    hide ValuesIn, BytesIn, ValuesAsked, BytesAsked, DecodedAs;
    TreesAsk(entries, scans, trees, |trees|);
    assert trees[..|trees|] == trees;
  }

  /**
   * The first half of admitting a batch: every document is scanned, and unless the batch was refused every decoded
   * declaration gets a view. Too many capabilities or slots, counted over all decoded declarations, withhold the batch.
   */
  method OpenRawBatch(declarations: seq<RawEntry>, profile: RawEntry)
    returns (scans: seq<RawDocumentScan>, found: seq<Found>, views: seq<View?>, blocked: bool, withheld: bool,
      ghost trees: seq<Option<Json>>)
    requires forall e :: e in declarations + [profile] ==> End !in e.tokens
    ensures BatchScanned(declarations + [profile], scans, found) && BlockedLast(scans, blocked)
    ensures BatchDecodedAs(declarations + [profile], scans, trees)
    ensures blocked ==> views == []
    ensures blocked <==> AsksTooMuch(declarations + [profile])
    ensures !blocked ==> |scans| == |declarations| + 1 && ViewsOf(views, trees[..|declarations|])
    ensures !blocked ==> ValuesIn(trees) <= VALUE_LIMIT && BytesIn(trees) <= STRING_LIMIT
    ensures !blocked ==>
      (withheld <==>
        || TotalItems(trees[..|declarations|], "provides") > TOTAL_CAPABILITIES
        || TotalItems(trees[..|declarations|], "slots") > TOTAL_SLOTS)
  {
    hide BatchScanned, BlockedLast, AsksTooMuch, Paid, ValuesIn, BytesIn, TotalItems, ViewsOf, DecodedAs;
    var entries := declarations + [profile];
    scans, found, blocked := ScanCaptured(entries);
    trees := DecodedTrees(entries, scans, found);
    views, withheld := [], false;
    if blocked { return; }
    TreesFit(entries, scans, trees);
    var n := |declarations|;
    assert entries[..n] == declarations;
    var totalCapabilities, totalSlots;
    views, totalCapabilities, totalSlots := CreateRawViews(declarations, scans[..n], trees[..n]);
    withheld := totalCapabilities > TOTAL_CAPABILITIES || totalSlots > TOTAL_SLOTS;
  }
}
