/** What the verdict of a reconciliation means, and the reasons it gives. */
module ReconcileVerdict {
  import opened Options
  import opened Reconcile
  import opened ReconcileJoin
  import opened ReconcileGreedy

  // -------------------------------------------------------------------- the verdict

  ghost predicate JoinsSome(receipts: seq<Receipt>, rows: seq<Row>, tolerance: nat, i: nat)
    requires i < |receipts|
  {
    exists j :: Joins(receipts, rows, tolerance, receipts[i], j)
  }

  /** A report is by identity exactly when some receipt or some row supplies an id. */
  lemma BasisExactly(receipts: seq<Receipt>, rows: seq<Row>, tolerance: nat)
    requires WellMetered(receipts)
    ensures ReportOf(receipts, rows, tolerance).byIdentity <==>
            (exists i :: 0 <= i < |receipts| && receipts[i].hasId) || exists j :: 0 <= j < |rows| && rows[j].hasId
  {
  }

  /** With ids: reconciled exactly when there are receipts and every one joins some row. */
  lemma VerdictByIdentity(receipts: seq<Receipt>, rows: seq<Row>, tolerance: nat)
    requires WellMetered(receipts) && ByIdentity(receipts, rows)
    ensures ReportOf(receipts, rows, tolerance).verdict ==
            if receipts == [] then NoReceipts
            else if forall i :: 0 <= i < |receipts| ==> JoinsSome(receipts, rows, tolerance, i) then Reconciled
            else Discrepancy
  {
    var hits := AllHits(receipts, rows, tolerance);
    UnmatchedNone(receipts, rows, hits);
    forall i | 0 <= i < |receipts| ensures hits[i].Some? <==> JoinsSome(receipts, rows, tolerance, i) {
      IdentityJoin(receipts, rows, tolerance, i);
    }
  }

  /** Without ids, at tolerance 0 and with one count per row: reconciled exactly when the receipts' token pairs are a
      non-empty sub-multiset of the rows'. */
  lemma VerdictByCounts(receipts: seq<Receipt>, rows: seq<Row>)
    requires WellMetered(receipts) && !ByIdentity(receipts, rows) && Exact(rows)
    ensures ReportOf(receipts, rows, 0).verdict ==
            if receipts == [] then NoReceipts
            else if Pairs(receipts) <= RowPairs(rows) then Reconciled
            else Discrepancy
  {
    ExactMatchCount(receipts, rows);
  }

  /** The rows that the matching gives to receipts. */
  function RowMap(hits: seq<Option<Hit>>): map<nat, nat> {
    map i: nat | i < |hits| && hits[i].Some? :: hits[i].value.row
  }

  /** The matching is a one-to-one assignment of the matched receipts. */
  lemma GreedyAssigns(receipts: seq<Receipt>, rows: seq<Row>, tolerance: nat)
    requires WellMetered(receipts) && !ByIdentity(receipts, rows)
    ensures var hits := AllHits(receipts, rows, tolerance);
            Assignment(receipts, rows, tolerance, RowMap(hits)) && |RowMap(hits)| == |Matched(hits)|
  {
    var hits := AllHits(receipts, rows, tolerance);
    forall i | 0 <= i < |hits| ensures Settled(receipts, rows, tolerance, hits, i) {
      GreedyIsMaximal(receipts, rows, tolerance, i);
    }
    forall i | i in RowMap(hits)
      ensures RowMap(hits)[i] < |rows| &&
              (FullFit(tolerance, rows[RowMap(hits)[i]], receipts[i].metered.value) ||
               LegacyFit(tolerance, rows[RowMap(hits)[i]], receipts[i].metered.value))
    {
      assert Settled(receipts, rows, tolerance, hits, i) && receipts[i].metered.Some?;
    }
    assert forall i :: 0 <= i < |receipts| ==> receipts[i].metered.Some?;
    forall i, k | i in RowMap(hits) && k in RowMap(hits) && i != k ensures RowMap(hits)[i] != RowMap(hits)[k] {
      assert Settled(receipts, rows, tolerance, hits, i) && Settled(receipts, rows, tolerance, hits, k);
    }
    assert RowMap(hits).Keys == MatchedSet(hits);
    MatchedSizes(hits);
  }

  /** Receipt `i` fits no row that the matched receipts have left free. */
  ghost predicate FitsNothingLeft(receipts: seq<Receipt>, rows: seq<Row>, tolerance: nat, i: nat)
    requires i < |receipts| && WellMetered(receipts)
  {
    var hits, m := AllHits(receipts, rows, tolerance), receipts[i].metered.value;
    forall j :: FreeAt(rows, hits, |hits|, j) ==> !FullFit(tolerance, rows[j], m) && !LegacyFit(tolerance, rows[j], m)
  }

  lemma UnmatchedFitsNothing(receipts: seq<Receipt>, rows: seq<Row>, tolerance: nat, i: nat)
    requires WellMetered(receipts) && !ByIdentity(receipts, rows) && i < |receipts|
    requires AllHits(receipts, rows, tolerance)[i].None?
    ensures FitsNothingLeft(receipts, rows, tolerance, i)
  {
    var hits := AllHits(receipts, rows, tolerance);
    GreedyIsMaximal(receipts, rows, tolerance, i);
    assert forall j :: FreeAt(rows, hits, |hits|, j) ==> FreeAt(rows, hits, i, j);
  }

  /** Without ids, at any tolerance: reconciled means that there are receipts and that all of them are assigned,
      one-to-one, to rows that fit them; a discrepancy means that some receipt fits no row left free. */
  lemma ReconciledIsAssigned(receipts: seq<Receipt>, rows: seq<Row>, tolerance: nat)
    requires WellMetered(receipts) && !ByIdentity(receipts, rows)
    ensures var v, rowOf := ReportOf(receipts, rows, tolerance).verdict, RowMap(AllHits(receipts, rows, tolerance));
            && (v == NoReceipts <==> receipts == [])
            && (v == Reconciled ==> Assignment(receipts, rows, tolerance, rowOf) && |rowOf| == |receipts| > 0)
            && (v == Discrepancy ==>
                  |rowOf| < |receipts| &&
                  exists i :: 0 <= i < |receipts| && FitsNothingLeft(receipts, rows, tolerance, i))
  {
    var hits := AllHits(receipts, rows, tolerance);
    GreedyAssigns(receipts, rows, tolerance);
    UnmatchedNone(receipts, rows, hits);
    NobodyLost(receipts, rows, hits);
    if Unmatched(receipts, rows, hits) != [] {
      var i :| 0 <= i < |receipts| && hits[i].None?;
      UnmatchedFitsNothing(receipts, rows, tolerance, i);
    }
  }

  // -------------------------------------------------------------------- the reasons

  lemma {:induction false} Repeats(receipts: seq<Receipt>, i: nat)
    requires i < |receipts|
    ensures CountDigest(receipts, receipts[i].digest) > 1 <==>
            exists k :: 0 <= k < |receipts| && k != i && receipts[k].digest == receipts[i].digest
  {
    if k :| 0 <= k < |receipts| && k != i && receipts[k].digest == receipts[i].digest {
      UniqueDigest(receipts, i, k);
    } else {
      CountAlone(receipts, receipts[i].digest, i);
    }
  }

  lemma {:induction false} CountAlone(receipts: seq<Receipt>, d: Option<string>, i: nat)
    requires forall k :: 0 <= k < |receipts| && k != i ==> receipts[k].digest != d
    ensures CountDigest(receipts, d) <= if i < |receipts| then 1 else 0
  {
    if receipts != [] {
      CountAlone(receipts[..|receipts| - 1], d, i);
    }
  }

  lemma {:induction false} RowsIncrease(rows: seq<Row>, d: string)
    ensures forall a, b :: 0 <= a < b < |RowsWith(rows, d)| ==> RowsWith(rows, d)[a] < RowsWith(rows, d)[b]
  {
    if rows != [] {
      RowsIncrease(rows[..|rows| - 1], d);
      RowsInRange(rows[..|rows| - 1], d);
    }
  }

  ghost predicate Carries(rows: seq<Row>, j: int, d: string) {
    0 <= j < |rows| && rows[j].digest == Some(d)
  }

  /** How many rows carry a key: none, one or more. */
  lemma RowsWithKey(rows: seq<Row>, d: string)
    ensures RowsWith(rows, d) == [] <==> forall j :: !Carries(rows, j, d)
    ensures |RowsWith(rows, d)| > 1 <==> exists j, k :: j != k && Carries(rows, j, d) && Carries(rows, k, d)
  {
    var w := RowsWith(rows, d);
    RowsInRange(rows, d);
    RowsIncrease(rows, d);
    if |w| > 1 {
      assert w[0] in w && w[1] in w;
      assert Carries(rows, w[0], d) && Carries(rows, w[1], d);
    }
    if w != [] {
      assert w[0] in w && Carries(rows, w[0], d);
    }
    if j, k :| j != k && Carries(rows, j, d) && Carries(rows, k, d) {
      assert j in w && k in w;
    }
  }

  /** The receipt's key is carried by another receipt, or by two rows. */
  ghost predicate Ambiguous(receipts: seq<Receipt>, rows: seq<Row>, i: nat)
    requires i < |receipts| && receipts[i].digest.Some?
  {
    var d := receipts[i].digest.value;
    || (exists k :: 0 <= k < |receipts| && k != i && receipts[k].digest == Some(d))
    || exists j, k :: j != k && Carries(rows, j, d) && Carries(rows, k, d)
  }

  /** With ids the reason for a receipt left over says what is wrong with its key, and only when its key is fine on
      both sides that the counts do not fit; without ids it is always the counts. */
  lemma ReasonExactly(receipts: seq<Receipt>, rows: seq<Row>, i: nat)
    requires i < |receipts|
    ensures ReasonFor(receipts, rows, i) ==
            if !ByIdentity(receipts, rows) then TokenMismatch
            else if !receipts[i].hasId then MissingReceiptId
            else if receipts[i].digest.None? then InvalidReceiptId
            else if Ambiguous(receipts, rows, i) then DuplicateId
            else if exists j :: Carries(rows, j, receipts[i].digest.value) then TokenMismatch
            else if exists j :: 0 <= j < |rows| && !rows[j].hasId then MissingProviderId
            else if exists j :: 0 <= j < |rows| && rows[j].digest.None? then InvalidProviderId
            else NoMatchingProviderId
  {
    if receipts[i].digest.Some? {
      Repeats(receipts, i);
      RowsWithKey(rows, receipts[i].digest.value);
    }
  }

  /** The receipts matched by their count without cache tokens. */
  function LegacySet(hits: seq<Option<Hit>>): set<nat> {
    set i: nat | i < |hits| && hits[i].Some? && hits[i].value.legacy
  }

  lemma LegacySetGrows(before: seq<Option<Hit>>, h: Option<Hit>)
    ensures LegacySet(before + [h]) == LegacySet(before) + if h.Some? && h.value.legacy then {|before|} else {}
  {
  }

  lemma {:induction false} LegacyCounted(hits: seq<Option<Hit>>)
    ensures LegacyCount(hits) == |LegacySet(hits)|
  {
    if hits != [] {
      var n := |hits| - 1;
      LegacyCounted(hits[..n]);
      LegacySetGrows(hits[..n], hits[n]);
      assert hits == hits[..n] + [hits[n]];
    }
  }

  lemma {:induction false} UnmatchedExactly(receipts: seq<Receipt>, rows: seq<Row>, hits: seq<Option<Hit>>,
                                            u: (nat, Reason))
    requires |hits| <= |receipts|
    ensures u in Unmatched(receipts, rows, hits) <==>
            u.0 < |hits| && hits[u.0].None? && u.1 == ReasonFor(receipts, rows, u.0)
  {
    if hits != [] {
      UnmatchedExactly(receipts, rows, hits[..|hits| - 1], u);
    }
  }

  /** The lists and counts of a report, from the hit of each receipt. */
  lemma ReportExactly(receipts: seq<Receipt>, rows: seq<Row>, tolerance: nat)
    requires WellMetered(receipts)
    ensures var hits, r := AllHits(receipts, rows, tolerance), ReportOf(receipts, rows, tolerance);
            && (forall i :: i in r.matched <==> 0 <= i < |receipts| && hits[i].Some?)
            && (forall u :: u in r.unmatched <==>
                  u.0 < |receipts| && hits[u.0].None? && u.1 == ReasonFor(receipts, rows, u.0))
            && |r.matched| + |r.unmatched| == |receipts|
            && r.legacyMatches == |LegacySet(hits)|
  {
    var hits := AllHits(receipts, rows, tolerance);
    MatchedExactly(hits);
    NobodyLost(receipts, rows, hits);
    LegacyCounted(hits);
    forall u ensures u in Unmatched(receipts, rows, hits) <==>
                     u.0 < |hits| && hits[u.0].None? && u.1 == ReasonFor(receipts, rows, u.0)
    {
      UnmatchedExactly(receipts, rows, hits, u);
    }
  }

  // ---------------------------------------------------------------- the diagnosis

  lemma {:induction false} StrippedPairs(a: seq<Receipt>, b: seq<Receipt>)
    requires WellMetered(a) && WellMetered(b) && |a| == |b|
    requires forall i :: 0 <= i < |a| ==> a[i].metered == b[i].metered
    ensures Pairs(a) == Pairs(b)
  {
    if a != [] {
      StrippedPairs(a[..|a| - 1], b[..|b| - 1]);
    }
  }

  lemma {:induction false} StrippedRowPairs(a: seq<Row>, b: seq<Row>)
    requires |a| == |b| && forall i :: 0 <= i < |a| ==> a[i].tokens == b[i].tokens
    ensures RowPairs(a) == RowPairs(b)
  {
    if a != [] {
      StrippedRowPairs(a[..|a| - 1], b[..|b| - 1]);
    }
  }

  /** A report by identity that leaves receipts over also says how many the token matching would find for the same
      receipts and rows without their ids. */
  lemma DiagnosisIgnoresIds(receipts: seq<Receipt>, rows: seq<Row>, tolerance: nat, bare: seq<Receipt>, plain: seq<Row>)
    requires WellMetered(receipts) && |bare| == |receipts| && |plain| == |rows|
    requires forall i :: 0 <= i < |bare| ==> bare[i] == Receipt(receipts[i].metered, false, None)
    requires forall j :: 0 <= j < |plain| ==> plain[j] == Row(rows[j].tokens, rows[j].legacy, false, None)
    ensures WellMetered(bare)
    ensures var r := ReportOf(receipts, rows, tolerance);
            r.consistency == if r.byIdentity && r.unmatched != [] then Some(|Matched(AllHits(bare, plain, tolerance))|)
                             else None
  {
    assert bare == StripReceipts(receipts) && plain == StripRows(rows);
  }

  /** A report by identity that leaves receipts over also says how many would match by their counts alone: at
      tolerance 0 and with one count per row, the size of the intersection of the token pairs. */
  lemma DiagnosisExactly(receipts: seq<Receipt>, rows: seq<Row>)
    requires WellMetered(receipts) && Exact(rows)
    ensures var r := ReportOf(receipts, rows, 0);
            r.consistency == if ByIdentity(receipts, rows) && r.unmatched != [] then
                               Some(|Pairs(receipts) * RowPairs(rows)|)
                             else None
  {
    var bare, stripped := StripReceipts(receipts), StripRows(rows);
    StrippedPairs(bare, receipts);
    StrippedRowPairs(stripped, rows);
    assert WellMetered(bare) && !ByIdentity(bare, stripped) && Exact(stripped);
    ExactMatchCount(bare, stripped);
  }
}
