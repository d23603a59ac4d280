/**
 * What a raw document is charged for, whatever budget is left when its turn comes (raw-document.ts,
 * raw-admission.ts).
 */
module RawCharges {
  import opened Sequences
  import opened JsonTree
  import opened RawDocument

  /** A scan gets this far unless the depth limit stops it earlier. */
  ghost predicate NotTooDeepBefore(tokens: seq<Token>, k: nat) {
    forall j: nat, doc :: j < k && IsPrefixDocument(tokens, j, doc) ==> DepthSoFar(doc) <= JSON_DEPTH
  }

  /**
   * The first k tokens are what the text and its depth allow: all of it, or up to the first token that stops the
   * scan.
   */
  ghost predicate FullAt(tokens: seq<Token>, k: nat, part: Document) {
    && IsPrefixDocument(tokens, k, part) && NotTooDeepBefore(tokens, k)
    && (k == |tokens| || !Viable(tokens, k + 1) || DepthSoFar(part) > JSON_DEPTH)
  }

  ghost predicate FullPart(tokens: seq<Token>, part: Document) {
    exists k: nat :: FullAt(tokens, k, part)
  }

  lemma PrefixCosts(tokens: seq<Token>, j: nat, a: Document, k: nat, b: Document)
    requires IsPrefixDocument(tokens, j, a) && IsPrefixDocument(tokens, k, b) && j <= k
    ensures ValuesSoFar(a) <= ValuesSoFar(b) && BytesSoFar(a) <= BytesSoFar(b) && DepthSoFar(a) <= DepthSoFar(b)
  {
    hide Sound, Spelled, ValuesSoFar, BytesSoFar, DepthSoFar;
    var doc := PrefixSpelled(b, j);
    assert tokens[..k][..j] == tokens[..j];
    Unique(tokens, j, a, doc);
  }

  lemma PrefixViable(tokens: seq<Token>, j: nat, k: nat, b: Document)
    requires IsPrefixDocument(tokens, k, b) && j <= k
    ensures Viable(tokens, j)
  {
    hide Sound, Spelled;
    var doc := PrefixSpelled(b, j);
    assert tokens[..k][..j] == tokens[..j];
    assert IsPrefixDocument(tokens, j, doc);
  }

  /** Nothing that a scan can come to costs more. */
  lemma FullIsMost(tokens: seq<Token>, k: nat, doc: Document, part: Document)
    requires IsPrefixDocument(tokens, k, doc) && NotTooDeepBefore(tokens, k) && FullPart(tokens, part)
    ensures ValuesSoFar(doc) <= ValuesSoFar(part) && BytesSoFar(doc) <= BytesSoFar(part)
  {
    hide Sound, Spelled, ValuesSoFar, BytesSoFar, DepthSoFar, Viable;
    var n: nat :| FullAt(tokens, n, part);
    if k > n { PrefixViable(tokens, n + 1, k, doc); }
    PrefixCosts(tokens, k, doc, n, part);
  }

  lemma OneMoreToken(tokens: seq<Token>, k: nat, doc: Document)
    requires IsPrefixDocument(tokens, k, doc) && NotTooDeepBefore(tokens, k) && DepthSoFar(doc) <= JSON_DEPTH
    ensures NotTooDeepBefore(tokens, k + 1)
  {
    hide IsPrefixDocument, DepthSoFar;
    forall j: nat, d | j < k + 1 && IsPrefixDocument(tokens, j, d) ensures DepthSoFar(d) <= JSON_DEPTH {
      if j == k { Unique(tokens, k, d, doc); }
    }
  }

  /** Every token sequence, text or not, has such a part. */
  lemma {:induction false} FullPartFrom(tokens: seq<Token>, k: nat, doc: Document)
    requires IsPrefixDocument(tokens, k, doc) && NotTooDeepBefore(tokens, k)
    ensures exists part :: FullPart(tokens, part)
    decreases |tokens| - k
  {
    hide IsPrefixDocument, NotTooDeepBefore, Viable, DepthSoFar;
    PrefixInside(tokens, k, doc);
    if k == |tokens| || !Viable(tokens, k + 1) || DepthSoFar(doc) > JSON_DEPTH {
      assert FullAt(tokens, k, doc);
      assert FullPart(tokens, doc);
    } else {
      var next := ViableDocument(tokens, k + 1);
      OneMoreToken(tokens, k, doc);
      FullPartFrom(tokens, k + 1, next);
    }
  }

  lemma PrefixInside(tokens: seq<Token>, k: nat, doc: Document)
    requires IsPrefixDocument(tokens, k, doc)
    ensures k <= |tokens|
  {
  }

  lemma ViableDocument(tokens: seq<Token>, k: nat) returns (doc: Document)
    requires Viable(tokens, k)
    ensures IsPrefixDocument(tokens, k, doc)
  {
    doc :| IsPrefixDocument(tokens, k, doc);
  }

  lemma FullPartExists(tokens: seq<Token>)
    ensures exists part :: FullPart(tokens, part)
  {
    NothingYet(tokens);
    FullPartFrom(tokens, 0, None);
  }

  /** The part of a document that is read and charged when no budget stops it. */
  ghost function PartIn(tokens: seq<Token>): (part: Document)
    ensures FullPart(tokens, part)
  {
    FullPartExists(tokens);
    var part :| FullPart(tokens, part);
    part
  }

  /** Any other such part is charged the same. */
  lemma PartCosts(tokens: seq<Token>, part: Document)
    requires FullPart(tokens, part)
    ensures ValuesSoFar(part) == ValuesSoFar(PartIn(tokens)) && BytesSoFar(part) == BytesSoFar(PartIn(tokens))
  {
    hide IsPrefixDocument, NotTooDeepBefore, ValuesSoFar, BytesSoFar, PartIn;
    var k: nat :| FullAt(tokens, k, part);
    var n: nat :| FullAt(tokens, n, PartIn(tokens));
    FullIsMost(tokens, k, part, PartIn(tokens));
    FullIsMost(tokens, n, PartIn(tokens), part);
  }

  /** A text within the depth limit is charged as a whole. */
  lemma TextPart(tokens: seq<Token>, v: Json)
    requires IsText(tokens, v) && Depth(v) <= JSON_DEPTH
    ensures Values(v) == ValuesSoFar(PartIn(tokens)) && TextBytes(v) == BytesSoFar(PartIn(tokens))
  {
    hide Values, TextBytes, Depth, PartIn, Spell, Whole, Partial;
    WholePartial(v);
    assert tokens[..|tokens|] == tokens;
    assert IsPrefixDocument(tokens, |tokens|, Some(v));
    forall j: nat, doc | j < |tokens| && IsPrefixDocument(tokens, j, doc) ensures DepthSoFar(doc) <= JSON_DEPTH {
      PrefixCosts(tokens, j, doc, |tokens|, Some(v));
    }
    assert FullAt(tokens, |tokens|, Some(v));
    PartCosts(tokens, Some(v));
  }

  // ---------- what a scan that is over has been charged ----------

  ghost function PartOf(outcome: Outcome): Document {
    if outcome.OverBudget? then outcome.beyond else outcome.doc
  }

  lemma BeforeEnd(tokens: seq<Token>, budget: Budget, k: nat, outcome: Outcome)
    requires Ended(tokens, budget, k, outcome)
    ensures NotTooDeepBefore(tokens, k + 1)
  {
    hide IsPrefixDocument, ValuesSoFar, BytesSoFar, DepthSoFar, Viable;
    forall j: nat, doc | j < k + 1 && IsPrefixDocument(tokens, j, doc) ensures DepthSoFar(doc) <= JSON_DEPTH {
      PrefixCosts(tokens, j, doc, k, outcome.doc);
    }
  }

  /** Unless the budget stopped it, the scan was charged for exactly what the document asks; else that is too much. */
  lemma ScanCharges(tokens: seq<Token>, budget: Budget, k: nat, outcome: Outcome, scan: RawDocumentScan)
    requires Ended(tokens, budget, k, outcome) && CountsOf(scan, budget, outcome)
    ensures scan.stoppedBy == None || scan.stoppedBy == Some(JsonDepth) ==>
      && scan.valueOccurrences == ValuesSoFar(PartIn(tokens)) <= budget.valuesRemaining
      && scan.stringBytes == BytesSoFar(PartIn(tokens)) <= budget.stringBytesRemaining
    ensures scan.stoppedBy.Some? && scan.stoppedBy != Some(JsonDepth) ==>
      ValuesSoFar(PartIn(tokens)) > budget.valuesRemaining || BytesSoFar(PartIn(tokens)) > budget.stringBytesRemaining
  {
    hide IsPrefixDocument, NotTooDeepBefore, ValuesSoFar, BytesSoFar, DepthSoFar, Viable, PartIn;
    BeforeEnd(tokens, budget, k, outcome);
    if outcome.OverBudget? {
      FullIsMost(tokens, k + 1, outcome.beyond, PartIn(tokens));
      if scan.stoppedBy == Some(JsonDepth) {
        assert FullAt(tokens, k + 1, outcome.beyond);
        PartCosts(tokens, outcome.beyond);
      }
    } else {
      Sooner(tokens, k);
      assert FullAt(tokens, k, outcome.doc);
      PartCosts(tokens, outcome.doc);
    }
  }

  lemma Sooner(tokens: seq<Token>, k: nat)
    requires NotTooDeepBefore(tokens, k + 1)
    ensures NotTooDeepBefore(tokens, k)
  {
  }
}
