/** Scanning a captured batch of raw documents under shared budgets (raw-admission.ts). */
module RawAdmission {
  import opened Sequences
  import opened Paths
  import opened JsonTree
  import opened DuplicateNames
  import opened DocumentShape
  import opened RawDocument
  import opened RawCharges
  import RawView
  import DuplicateReplay

  const VALUE_LIMIT: nat := 2097152
  const STRING_LIMIT: nat := 8388608

  function Charged(budget: Budget, scan: RawDocumentScan): Budget {
    Budget(Max(0, budget.valuesRemaining - scan.valueOccurrences),
      Max(0, budget.stringBytesRemaining - scan.stringBytes))
  }

  /** The paths reported of one document: its repeated names, and the container that was too deep. */
  datatype Found = Found(duplicates: seq<Path>, tooDeep: Option<Path>)

  /** A charge against the whole batch that was refused; too deep a document withholds only itself. */
  predicate Blocks(scan: RawDocumentScan) {
    scan.stoppedBy == Some(JsonValueOccurrences) || scan.stoppedBy == Some(AggregateStringBytes)
  }

  /** The scan of a document, in terms of the part of it that was read. */
  ghost predicate ScanOf(tokens: seq<Token>, budget: Budget, k: nat, outcome: Outcome, scan: RawDocumentScan) {
    && Ended(tokens, budget, k, outcome) && CountsOf(scan, budget, outcome)
    && (scan.duplicateKey <==> DuplicatesSoFar(outcome.doc) != [])
    && (scan.invalidJson <==> outcome.RefusedAt? || (outcome.Reached? && !Finished(outcome.doc)))
    && (scan.decoded <==> exists v :: Admissible(tokens, v, budget))
    && (scan.invalidJson ==> !exists v :: IsText(tokens, v))
  }

  /** The emitted paths are the projections of what the scan reported, each once. */
  ghost predicate Projected(kind: DocumentKind, reported: seq<Path>, emitted: seq<Path>) {
    Distinct(emitted) && forall q :: q in emitted <==> DuplicateReplay.DuplicateReported(kind, reported, q)
  }

  /** A container that was too deep is reported by the projection of its path, and only then is there such a report. */
  ghost predicate DepthReported(kind: DocumentKind, outcome: Outcome, scan: RawDocumentScan, tooDeep: Option<Path>) {
    && (tooDeep.Some? <==> scan.stoppedBy == Some(JsonDepth))
    && (tooDeep.Some? ==> outcome.OverBudget? && exists p ::
      LimitPath(outcome.beyond, p) && tooDeep.value == Project(kind, p))
  }

  /** Everything reported of one document, about the one part of it that the scan committed. */
  ghost predicate Scanned(tokens: seq<Token>, kind: DocumentKind, budget: Budget, scan: RawDocumentScan, found: Found) {
    exists k: nat, outcome :: ScannedTo(tokens, kind, budget, k, outcome, scan, found)
  }

  ghost predicate ScannedTo(tokens: seq<Token>, kind: DocumentKind, budget: Budget, k: nat, outcome: Outcome,
                            scan: RawDocumentScan, found: Found) {
    && ScanOf(tokens, budget, k, outcome, scan)
    && Projected(kind, DuplicatesSoFar(outcome.doc), found.duplicates)
    && DepthReported(kind, outcome, scan, found.tooDeep)
  }

  /** Every admitted document can be read through the lazy view and classified number by number. */
  lemma AdmissibleIsDecoded(tokens: seq<Token>, v: Json, budget: Budget)
    requires Admissible(tokens, v, budget)
    ensures RawView.Decoded(v) && tokens == Spell(v)
  {
  }

  /** A scan and, when it reported repeated names, the replay of exactly what it had committed. */
  method ScanRawEntry(tokens: seq<Token>, kind: DocumentKind, budget: Budget)
    returns (scan: RawDocumentScan, found: Found, next: Budget)
    requires End !in tokens
    ensures Scanned(tokens, kind, budget, scan, found)
    ensures next == Charged(budget, scan)
  {
    hide ScanOf, Projected, Duplicates, DuplicatesSoFar, Sound, Spelled, Ended, CountsOf, Finished, Admissible, IsText,
         LimitPath, Project;
    var reported, observedEnd, depthLimit;
    ghost var outcome;
    scan, reported, observedEnd, depthLimit, outcome := ScanRawDocument(tokens, budget);
    ScanOver(tokens, budget, observedEnd, outcome, scan);
    var duplicates: seq<Path> := [];
    if scan.duplicateKey {
      duplicates := DuplicateReplay.VisitRawDuplicatePaths(tokens, observedEnd, kind, outcome.doc);
      ReplayProjects(kind, outcome.doc, duplicates);
    } else {
      NothingProjected(kind);
    }
    next := Charged(budget, scan);
    var tooDeep: Option<Path> := None;
    if depthLimit.Some? {
      var path := SchemaSafeLocalPath(kind, depthLimit.value);
      tooDeep := Some(path);
    }
    found := Found(duplicates, tooDeep);
    assert ScannedTo(tokens, kind, budget, observedEnd, outcome, scan, found);
  }

  lemma ScanOver(tokens: seq<Token>, budget: Budget, k: nat, outcome: Outcome, scan: RawDocumentScan)
    requires Ended(tokens, budget, k, outcome) && CountsOf(scan, budget, outcome)
    requires scan.duplicateKey <==> DuplicatesSoFar(outcome.doc) != []
    requires scan.invalidJson <==> outcome.RefusedAt? || (outcome.Reached? && !Finished(outcome.doc))
    requires scan.decoded <==> exists v :: Admissible(tokens, v, budget)
    requires scan.invalidJson ==> !exists v :: IsText(tokens, v)
    ensures ScanOf(tokens, budget, k, outcome, scan)
    ensures k <= |tokens| && Sound(outcome.doc) && Spelled(outcome.doc) == tokens[..k]
  {
    hide Sound, Spelled, CountsOf, Finished, Admissible, IsText, DuplicatesSoFar, Viable;
  }

  lemma NothingProjected(kind: DocumentKind)
    ensures Projected(kind, [], [])
  {
  }

  lemma ReplayProjects(kind: DocumentKind, doc: Document, emitted: seq<Path>)
    requires Distinct(emitted)
    requires forall q ::
      q in emitted <==> DuplicateReplay.DuplicateReported(kind, if doc.Some? then Duplicates(doc.value) else [], q)
    ensures Projected(kind, DuplicatesSoFar(doc), emitted)
  {
    hide Duplicates;
  }

  ghost function TotalValues(scans: seq<RawDocumentScan>): nat {
    if scans == [] then 0 else TotalValues(scans[..|scans| - 1]) + scans[|scans| - 1].valueOccurrences
  }

  ghost function TotalBytes(scans: seq<RawDocumentScan>): nat {
    if scans == [] then 0 else TotalBytes(scans[..|scans| - 1]) + scans[|scans| - 1].stringBytes
  }

  /** What the documents scanned so far leave of the batch's budget. */
  ghost function Left(scans: seq<RawDocumentScan>): Budget {
    Budget(Max(0, VALUE_LIMIT - TotalValues(scans)), Max(0, STRING_LIMIT - TotalBytes(scans)))
  }

  /** A document of the batch: its tokens and what it is meant to be. */
  datatype RawEntry = RawEntry(tokens: seq<Token>, kind: DocumentKind)

  /** Scanned against what the documents before it had left. */
  ghost predicate ScannedAt(entries: seq<RawEntry>, scans: seq<RawDocumentScan>, found: seq<Found>, i: nat)
    requires i < |scans| == |found| <= |entries|
  {
    Scanned(entries[i].tokens, entries[i].kind, Left(scans[..i]), scans[i], found[i])
  }

  ghost predicate BatchScanned(entries: seq<RawEntry>, scans: seq<RawDocumentScan>, found: seq<Found>) {
    |scans| == |found| <= |entries| && forall i :: 0 <= i < |scans| ==> ScannedAt(entries, scans, found, i)
  }

  /** Only the last document can have been refused by the batch's budget. */
  ghost predicate BlockedLast(scans: seq<RawDocumentScan>, blocked: bool) {
    && (blocked <==> scans != [] && Blocks(scans[|scans| - 1]))
    && forall i :: 0 <= i < |scans| - 1 ==> !Blocks(scans[i])
  }

  // ---------- what a batch asks for ----------

  /** The values in what each document would be read for, budgets aside. */
  ghost function ValuesAsked(entries: seq<RawEntry>): nat {
    if entries == [] then 0
    else ValuesAsked(entries[..|entries| - 1]) + ValuesSoFar(PartIn(entries[|entries| - 1].tokens))
  }

  ghost function BytesAsked(entries: seq<RawEntry>): nat {
    if entries == [] then 0
    else BytesAsked(entries[..|entries| - 1]) + BytesSoFar(PartIn(entries[|entries| - 1].tokens))
  }

  /** The documents of the batch together ask for more than it may have. */
  ghost predicate AsksTooMuch(entries: seq<RawEntry>) {
    ValuesAsked(entries) > VALUE_LIMIT || BytesAsked(entries) > STRING_LIMIT
  }

  lemma AskedNext(entries: seq<RawEntry>, i: nat)
    requires i < |entries|
    ensures ValuesAsked(entries[..i + 1]) == ValuesAsked(entries[..i]) + ValuesSoFar(PartIn(entries[i].tokens))
    ensures BytesAsked(entries[..i + 1]) == BytesAsked(entries[..i]) + BytesSoFar(PartIn(entries[i].tokens))
  {
    hide PartIn, ValuesSoFar, BytesSoFar;
    assert entries[..i + 1][..i] == entries[..i];
  }

  lemma {:induction false} AskedMore(entries: seq<RawEntry>, i: nat)
    requires i <= |entries|
    ensures ValuesAsked(entries[..i]) <= ValuesAsked(entries) && BytesAsked(entries[..i]) <= BytesAsked(entries)
    decreases |entries| - i
  {
    hide PartIn, ValuesSoFar, BytesSoFar;
    if i == |entries| {
      assert entries[..i] == entries;
    } else {
      AskedNext(entries, i);
      AskedMore(entries, i + 1);
    }
  }

  /** The documents scanned so far have been charged for exactly what they ask, and that fits. */
  ghost predicate Paid(entries: seq<RawEntry>, scans: seq<RawDocumentScan>)
    requires |scans| <= |entries|
  {
    && TotalValues(scans) == ValuesAsked(entries[..|scans|]) <= VALUE_LIMIT
    && TotalBytes(scans) == BytesAsked(entries[..|scans|]) <= STRING_LIMIT
  }

  /**
   * Scans documents until the batch's budget is refused, which happens exactly when the documents together ask for
   * too much. A batch that is not blocked has scanned everything, and charged it for exactly what it asks.
   */
  method ScanCaptured(entries: seq<RawEntry>) returns (scans: seq<RawDocumentScan>, found: seq<Found>, blocked: bool)
    requires forall e :: e in entries ==> End !in e.tokens
    ensures BatchScanned(entries, scans, found) && BlockedLast(scans, blocked)
    ensures blocked <==> AsksTooMuch(entries)
    ensures !blocked ==> |scans| == |entries| && Paid(entries, scans)
  {
    hide Scanned, BatchScanned, Paid, Left, Charged, BlockedLast, Blocks, AsksTooMuch;
    scans, found, blocked := [], [], false;
    var budget := Budget(VALUE_LIMIT, STRING_LIMIT);
    var i := 0;
    NoneScanned(entries);
    while i < |entries| && !blocked
      invariant 0 <= i <= |entries| && i == |scans| && BatchScanned(entries, scans, found)
      invariant budget == Left(scans) && BlockedLast(scans, blocked)
      invariant if blocked then AsksTooMuch(entries) else Paid(entries, scans)
      decreases |entries| - i
    {
      var scan, one, next;
      scan, one, next := ScanRawEntry(entries[i].tokens, entries[i].kind, budget);
      OneMore(entries, scans, found, scan, one);
      scans, found, budget := scans + [scan], found + [one], next;
      blocked := Blocks(scan);
      i := i + 1;
    }
    if !blocked { AllPaid(entries, scans); }
  }

  lemma NoneScanned(entries: seq<RawEntry>)
    ensures BatchScanned(entries, [], []) && Paid(entries, []) && BlockedLast([], false)
    ensures Left([]) == Budget(VALUE_LIMIT, STRING_LIMIT)
  {
    assert entries[..0] == [];
  }

  lemma AllPaid(entries: seq<RawEntry>, scans: seq<RawDocumentScan>)
    requires |scans| == |entries| && Paid(entries, scans)
    ensures !AsksTooMuch(entries)
  {
    hide ValuesAsked, BytesAsked, TotalValues, TotalBytes;
    assert entries[..|scans|] == entries;
  }

  lemma PushTotals(scans: seq<RawDocumentScan>, scan: RawDocumentScan)
    ensures TotalValues(scans + [scan]) == TotalValues(scans) + scan.valueOccurrences
    ensures TotalBytes(scans + [scan]) == TotalBytes(scans) + scan.stringBytes
  {
    assert (scans + [scan])[..|scans|] == scans;
  }

  lemma ScannedCharges(e: RawEntry, budget: Budget, scan: RawDocumentScan, found: Found)
    requires Scanned(e.tokens, e.kind, budget, scan, found)
    ensures !Blocks(scan) ==>
      && scan.valueOccurrences == ValuesSoFar(PartIn(e.tokens)) <= budget.valuesRemaining
      && scan.stringBytes == BytesSoFar(PartIn(e.tokens)) <= budget.stringBytesRemaining
    ensures Blocks(scan) ==>
      ValuesSoFar(PartIn(e.tokens)) > budget.valuesRemaining
        || BytesSoFar(PartIn(e.tokens)) > budget.stringBytesRemaining
  {
    hide Ended, CountsOf, Projected, DepthReported, DuplicatesSoFar, Finished, Admissible, IsText, PartIn, ValuesSoFar,
         BytesSoFar;
    var k: nat, outcome :| ScannedTo(e.tokens, e.kind, budget, k, outcome, scan, found);
    ScanCharges(e.tokens, budget, k, outcome, scan);
    if scan.stoppedBy.Some? && !Blocks(scan) { assert scan.stoppedBy.value.JsonDepth?; }
  }

  lemma OneMore(entries: seq<RawEntry>, scans: seq<RawDocumentScan>, found: seq<Found>, scan: RawDocumentScan,
                one: Found)
    requires BatchScanned(entries, scans, found)
    requires |scans| < |entries|
    requires Paid(entries, scans)
    requires BlockedLast(scans, false)
    requires Scanned(entries[|scans|].tokens, entries[|scans|].kind, Left(scans), scan, one)
    ensures |scans + [scan]| == |scans| + 1
    ensures BatchScanned(entries, scans + [scan], found + [one]) && BlockedLast(scans + [scan], Blocks(scan))
    ensures Left(scans + [scan]) == Charged(Left(scans), scan)
    ensures if Blocks(scan) then AsksTooMuch(entries) else Paid(entries, scans + [scan])
  {
    hide Scanned, Left, Charged, Paid, Blocks, AsksTooMuch;
    OnePaid(entries, scans, scan, one);
    var all, both := scans + [scan], found + [one];
    forall i | 0 <= i < |all| ensures ScannedAt(entries, all, both, i) {
      if i < |scans| {
        assert ScannedAt(entries, scans, found, i);
        assert all[..i] == scans[..i];
      } else {
        assert all[..i] == scans;
      }
    }
  }

  lemma OnePaid(entries: seq<RawEntry>, scans: seq<RawDocumentScan>, scan: RawDocumentScan, one: Found)
    requires |scans| < |entries| && Paid(entries, scans)
    requires Scanned(entries[|scans|].tokens, entries[|scans|].kind, Left(scans), scan, one)
    ensures Left(scans + [scan]) == Charged(Left(scans), scan)
    ensures if Blocks(scan) then AsksTooMuch(entries) else Paid(entries, scans + [scan])
  {
    hide Scanned, Blocks, TotalValues, TotalBytes, ValuesAsked, BytesAsked, PartIn, ValuesSoFar, BytesSoFar;
    PushTotals(scans, scan);
    ScannedCharges(entries[|scans|], Left(scans), scan, one);
    AskedNext(entries, |scans|);
    AskedMore(entries, |scans| + 1);
  }
}
