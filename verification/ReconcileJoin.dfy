/** What the two joins of `reconcile` compute. */
module ReconcileJoin {
  import opened Options
  import opened Reconcile
  import opened Totals

  // ------------------------------------------------------------- first free row

  lemma {:induction false} FirstFreeFacts(rows: seq<Row>, cs: seq<nat>, used: set<nat>, tokens: (nat, nat),
                                          tolerance: nat, legacy: bool)
    ensures FirstFits(rows, cs, used, tokens, tolerance, legacy, FirstFree(rows, cs, used, tokens, tolerance, legacy))
  {
    if cs != [] {
      FirstFreeFacts(rows, cs[1..], used, tokens, tolerance, legacy);
    }
  }

  /** A free candidate that fits, or none when none does. */
  ghost predicate FirstFits(rows: seq<Row>, cs: seq<nat>, used: set<nat>, tokens: (nat, nat), tolerance: nat,
                            legacy: bool, r: Option<nat>)
  {
    match r
    case Some(j) => j in cs && j < |rows| && j !in used && Fits(tolerance, rows[j], tokens, legacy)
    case None => forall j <- cs :: j < |rows| && j !in used ==> !Fits(tolerance, rows[j], tokens, legacy)
  }

  /** The same for the two scans together. */
  ghost predicate PickFits(rows: seq<Row>, cs: seq<nat>, used: set<nat>, tokens: (nat, nat), tolerance: nat,
                           h: Option<Hit>)
  {
    match h
    case Some(hit) =>
      hit.row in cs && hit.row < |rows| && hit.row !in used && Fits(tolerance, rows[hit.row], tokens, hit.legacy)
    case None => forall j <- cs :: j < |rows| && j !in used ==>
                   !Close(tolerance, rows[j], tokens) && !LegacyClose(tolerance, rows[j], tokens)
  }

  /** A pick is a free candidate that fits; there is none only when no free candidate fits either way. */
  lemma PickFacts(rows: seq<Row>, cs: seq<nat>, used: set<nat>, tokens: (nat, nat), tolerance: nat)
    ensures PickFits(rows, cs, used, tokens, tolerance, Pick(rows, cs, used, tokens, tolerance))
  {
    FirstFreeFacts(rows, cs, used, tokens, tolerance, false);
    FirstFreeFacts(rows, cs, used, tokens, tolerance, true);
    forall j | j in cs && j < |rows| && j !in used && Pick(rows, cs, used, tokens, tolerance).None?
      ensures !Close(tolerance, rows[j], tokens) && !LegacyClose(tolerance, rows[j], tokens)
    {
      assert !Fits(tolerance, rows[j], tokens, false) && !Fits(tolerance, rows[j], tokens, true);
    }
  }

  lemma {:induction false} TakenRow(hits: seq<Option<Hit>>, j: nat)
    ensures j in Taken(hits) <==> exists k :: 0 <= k < |hits| && hits[k].Some? && hits[k].value.row == j
  {
    if hits != [] {
      var n := |hits| - 1;
      TakenRow(hits[..n], j);
      if k :| 0 <= k < |hits| && hits[k].Some? && hits[k].value.row == j {
        if k < n { assert hits[..n][k] == hits[k]; }
      }
      if j in Taken(hits[..n]) {
        var k :| 0 <= k < n && hits[..n][k].Some? && hits[..n][k].value.row == j;
        assert hits[k] == hits[..n][k];
      }
    }
  }

  /** `h(k + 1)` is `h(k)` and one more element. */
  ghost predicate Extends<T(!new)>(h: nat -> seq<T>, k: nat) {
    |h(k)| == k && |h(k + 1)| == k + 1 && h(k + 1)[..k] == h(k)
  }

  lemma {:induction false} PrefixChain<T(!new)>(h: nat -> seq<T>, n: nat, m: nat)
    requires m < n && forall k: nat :: k < n ==> Extends(h, k)
    ensures |h(n)| == n && h(n)[..m] == h(m)
  {
    assert Extends(h, n - 1);
    if m < n - 1 {
      PrefixChain(h, n - 1, m);
      assert h(n)[..n - 1][..m] == h(n)[..m];
    }
  }

  function HitsUpTo(receipts: seq<Receipt>, rows: seq<Row>, tolerance: nat): nat -> seq<Option<Hit>>
    requires WellMetered(receipts)
  {
    (k: nat) => if k <= |receipts| then Hits(receipts, rows, tolerance, k) else []
  }

  lemma HitsExtend(receipts: seq<Receipt>, rows: seq<Row>, tolerance: nat, k: nat)
    requires WellMetered(receipts) && k < |receipts|
    ensures Extends(HitsUpTo(receipts, rows, tolerance), k)
  {
  }

  lemma HitsPrefix(receipts: seq<Receipt>, rows: seq<Row>, tolerance: nat, n: nat, m: nat)
    requires m < n <= |receipts| && WellMetered(receipts)
    ensures Hits(receipts, rows, tolerance, n)[..m] == Hits(receipts, rows, tolerance, m)
  {
    var h := HitsUpTo(receipts, rows, tolerance);
    forall k: nat | k < n ensures Extends(h, k) {
      HitsExtend(receipts, rows, tolerance, k);
    }
    PrefixChain(h, n, m);
  }

  /** The hit of receipt `i` was picked with the rows of the earlier hits taken. */
  lemma HitAt(receipts: seq<Receipt>, rows: seq<Row>, tolerance: nat, i: nat)
    requires i < |receipts| && WellMetered(receipts)
    ensures AllHits(receipts, rows, tolerance)[i] ==
            Pick(rows, Candidates(receipts, rows, i), Taken(AllHits(receipts, rows, tolerance)[..i]),
                 receipts[i].metered.value, tolerance)
  {
    if i + 1 < |receipts| {
      HitsPrefix(receipts, rows, tolerance, |receipts|, i + 1);
    }
    HitsPrefix(receipts, rows, tolerance, |receipts|, i);
    var all := AllHits(receipts, rows, tolerance);
    assert all[i] == all[..i + 1][i];
  }

  // --------------------------------------------------------- matched and unmatched

  lemma {:induction false} MatchedExactly(hits: seq<Option<Hit>>)
    ensures forall i :: i in Matched(hits) <==> 0 <= i < |hits| && hits[i].Some?
    ensures forall a, b :: 0 <= a < b < |Matched(hits)| ==> Matched(hits)[a] < Matched(hits)[b]
  {
    if hits != [] {
      var before := Matched(hits[..|hits| - 1]);
      MatchedExactly(hits[..|hits| - 1]);
      forall a | 0 <= a < |before| ensures before[a] < |hits| - 1 {
        assert before[a] in before;
      }
    }
  }

  lemma {:induction false} NobodyLost(receipts: seq<Receipt>, rows: seq<Row>, hits: seq<Option<Hit>>)
    requires |hits| <= |receipts|
    ensures |Matched(hits)| + |Unmatched(receipts, rows, hits)| == |hits|
  {
    if hits != [] {
      NobodyLost(receipts, rows, hits[..|hits| - 1]);
    }
  }

  // ----------------------------------------------------------------- the id join

  predicate Within(tolerance: nat, a: nat, b: nat) {
    a <= b + tolerance && b <= a + tolerance
  }

  /** Both counts of the row are within the tolerance. */
  predicate FullFit(tolerance: nat, row: Row, tokens: (nat, nat)) {
    Within(tolerance, row.tokens.0, tokens.0) && Within(tolerance, row.tokens.1, tokens.1)
  }

  /** The same with the prompt count without cache tokens, where the row has one. */
  predicate LegacyFit(tolerance: nat, row: Row, tokens: (nat, nat)) {
    row.legacy.Some? && Within(tolerance, row.legacy.value, tokens.0) && Within(tolerance, row.tokens.1, tokens.1)
  }

  /** The declarative join: a valid key that one receipt and one row carry, and counts that fit. */
  ghost predicate Joins(receipts: seq<Receipt>, rows: seq<Row>, tolerance: nat, r: Receipt, j: nat) {
    && r.digest.Some? && CountDigest(receipts, r.digest) == 1
    && RowsWith(rows, r.digest.value) == [j] && j < |rows|
    && r.metered.Some?
    && (FullFit(tolerance, rows[j], r.metered.value) || LegacyFit(tolerance, rows[j], r.metered.value))
  }

  lemma {:induction false} UniqueDigest(receipts: seq<Receipt>, i: nat, k: nat)
    requires i < |receipts| && k < |receipts| && i != k && receipts[i].digest == receipts[k].digest
    ensures CountDigest(receipts, receipts[i].digest) >= 2
  {
    var n := |receipts| - 1;
    if i < n && k < n {
      UniqueDigest(receipts[..n], i, k);
    } else {
      CountedOnce(receipts[..n], if i < n then i else k);
    }
  }

  /** A row that a receipt took carries that receipt's key, so nobody else can want it. */
  lemma NeverBlocked(receipts: seq<Receipt>, rows: seq<Row>, tolerance: nat, i: nat, j: nat)
    requires WellMetered(receipts) && ByIdentity(receipts, rows) && i < |receipts| && receipts[i].digest.Some?
    requires CountDigest(receipts, receipts[i].digest) == 1 && RowsWith(rows, receipts[i].digest.value) == [j]
    ensures j !in Taken(AllHits(receipts, rows, tolerance)[..i])
  {
    var hits := AllHits(receipts, rows, tolerance);
    TakenRow(hits[..i], j);
    RowsInRange(rows, receipts[i].digest.value);
    forall k | 0 <= k < i && hits[k].Some? ensures hits[k].value.row != j {
      HitAt(receipts, rows, tolerance, k);
      PickFacts(rows, Candidates(receipts, rows, k), Taken(hits[..k]), receipts[k].metered.value, tolerance);
      RowsInRange(rows, receipts[k].digest.value);
      if receipts[k].digest == receipts[i].digest {
        UniqueDigest(receipts, i, k);
      }
      assert j in RowsWith(rows, receipts[i].digest.value);
    }
  }

  /** A count without cache tokens is used only if no free candidate has a close full count. */
  lemma LegacyIsFallback(rows: seq<Row>, cs: seq<nat>, used: set<nat>, tokens: (nat, nat), tolerance: nat)
    ensures var h := Pick(rows, cs, used, tokens, tolerance);
            h.Some? ==> h.value.row < |rows| && (h.value.legacy <==> !FullFit(tolerance, rows[h.value.row], tokens))
  {
    FirstFreeFacts(rows, cs, used, tokens, tolerance, false);
    FirstFreeFacts(rows, cs, used, tokens, tolerance, true);
  }

  /** With any id supplied, a receipt is matched if and only if it joins a row, and then to that row, by its full
      count if that is close. */
  lemma IdentityJoin(receipts: seq<Receipt>, rows: seq<Row>, tolerance: nat, i: nat)
    requires WellMetered(receipts) && ByIdentity(receipts, rows) && i < |receipts|
    ensures var h := AllHits(receipts, rows, tolerance)[i];
            && (h.Some? <==> exists j :: Joins(receipts, rows, tolerance, receipts[i], j))
            && (h.Some? ==> Joins(receipts, rows, tolerance, receipts[i], h.value.row) &&
                            (h.value.legacy <==> !FullFit(tolerance, rows[h.value.row], receipts[i].metered.value)))
  {
    var r := receipts[i];
    var cs, taken := Candidates(receipts, rows, i), Taken(AllHits(receipts, rows, tolerance)[..i]);
    HitAt(receipts, rows, tolerance, i);
    PickFacts(rows, cs, taken, r.metered.value, tolerance);
    LegacyIsFallback(rows, cs, taken, r.metered.value, tolerance);
    if |cs| == 1 {
      OneCandidate(receipts, rows, tolerance, i);
      NeverBlocked(receipts, rows, tolerance, i, cs[0]);
    } else {
      assert forall j :: !Joins(receipts, rows, tolerance, r, j);
    }
  }

  lemma OneCandidate(receipts: seq<Receipt>, rows: seq<Row>, tolerance: nat, i: nat)
    requires WellMetered(receipts) && ByIdentity(receipts, rows) && i < |receipts| &&
             |Candidates(receipts, rows, i)| == 1
    ensures var r, j := receipts[i], Candidates(receipts, rows, i)[0];
            && r.digest.Some? && CountDigest(receipts, r.digest) == 1 && RowsWith(rows, r.digest.value) == [j] &&
               j < |rows|
            && (Joins(receipts, rows, tolerance, r, j) <==>
                FullFit(tolerance, rows[j], r.metered.value) || LegacyFit(tolerance, rows[j], r.metered.value))
            && forall k :: k != j ==> !Joins(receipts, rows, tolerance, r, k)
  {
    var r, cs := receipts[i], Candidates(receipts, rows, i);
    RowsInRange(rows, r.digest.value);
    assert cs == [cs[0]] && cs[0] in RowsWith(rows, r.digest.value);
  }

  // ------------------------------------------------------ the join ignores order

  lemma {:induction false} DigestCount(receipts: seq<Receipt>, d: Option<string>, p: Receipt -> bool)
    requires forall r :: p(r) <==> r.digest == d
    ensures CountDigest(receipts, d) == CountIf(receipts, p)
  {
    if receipts != [] {
      DigestCount(receipts[..|receipts| - 1], d, p);
    }
  }

  lemma {:induction false} RowCount(rows: seq<Row>, d: string, p: Row -> bool)
    requires forall w :: p(w) <==> w.digest == Some(d)
    ensures |RowsWith(rows, d)| == CountIf(rows, p)
  {
    if rows != [] {
      RowCount(rows[..|rows| - 1], d, p);
    }
  }

  lemma SameCounts(receipts: seq<Receipt>, rows: seq<Row>, receipts': seq<Receipt>, rows': seq<Row>, d: string)
    requires multiset(receipts) == multiset(receipts') && multiset(rows) == multiset(rows')
    ensures CountDigest(receipts, Some(d)) == CountDigest(receipts', Some(d))
    ensures |RowsWith(rows, d)| == |RowsWith(rows', d)|
  {
    var p, q := (r: Receipt) => r.digest == Some(d), (w: Row) => w.digest == Some(d);
    DigestCount(receipts, Some(d), p);
    DigestCount(receipts', Some(d), p);
    CountPermuted(receipts, receipts', p);
    RowCount(rows, d, q);
    RowCount(rows', d, q);
    CountPermuted(rows, rows', q);
  }

  lemma Joinable(receipts: seq<Receipt>, rows: seq<Row>, receipts': seq<Receipt>, rows': seq<Row>, tolerance: nat,
                 r: Receipt, j: nat) returns (j': nat)
    requires multiset(receipts) == multiset(receipts') && multiset(rows) == multiset(rows')
    requires Joins(receipts, rows, tolerance, r, j)
    ensures Joins(receipts', rows', tolerance, r, j') && rows'[j'] == rows[j]
  {
    var d := r.digest.value;
    SameCounts(receipts, rows, receipts', rows', d);
    RowsInRange(rows, d);
    RowsInRange(rows', d);
    assert j in RowsWith(rows, d) && rows[j] in multiset(rows');
    j' :| 0 <= j' < |rows'| && rows'[j'] == rows[j];
    assert j' in RowsWith(rows', d) && RowsWith(rows', d) == [RowsWith(rows', d)[0]];
  }

  lemma SameBasis(receipts: seq<Receipt>, rows: seq<Row>, receipts': seq<Receipt>, rows': seq<Row>)
    requires multiset(receipts) == multiset(receipts') && multiset(rows) == multiset(rows') &&
             ByIdentity(receipts, rows)
    ensures ByIdentity(receipts', rows')
  {
    if AnyReceiptId(receipts) {
      var i :| 0 <= i < |receipts| && receipts[i].hasId;
      assert receipts[i] in multiset(receipts');
    } else {
      var j :| 0 <= j < |rows| && rows[j].hasId;
      assert rows[j] in multiset(rows');
    }
  }

  lemma SameRowGaps(rows: seq<Row>, rows': seq<Row>)
    requires multiset(rows) == multiset(rows')
    ensures AnyRowWithoutId(rows) ==> AnyRowWithoutId(rows')
    ensures AnyRowWithoutDigest(rows) ==> AnyRowWithoutDigest(rows')
  {
    forall j | 0 <= j < |rows| ensures exists k :: 0 <= k < |rows'| && rows'[k] == rows[j] {
      assert rows[j] in multiset(rows');
    }
  }

  /** A receipt's outcome in a run: how it was matched, or why it was not. */
  datatype Fate = MatchedBy(legacy: bool) | LeftOver(reason: Reason)

  function FateOf(receipts: seq<Receipt>, rows: seq<Row>, tolerance: nat, i: nat): Fate
    requires WellMetered(receipts) && i < |receipts|
  {
    match AllHits(receipts, rows, tolerance)[i]
    case Some(h) => MatchedBy(h.legacy)
    case None => LeftOver(ReasonFor(receipts, rows, i))
  }

  /** What two runs over the same receipts and rows in different orders have in common. */
  ghost predicate Permuted(receipts: seq<Receipt>, rows: seq<Row>, receipts': seq<Receipt>, rows': seq<Row>) {
    && WellMetered(receipts) && WellMetered(receipts') && ByIdentity(receipts, rows) && ByIdentity(receipts', rows')
    && multiset(receipts) == multiset(receipts') && multiset(rows) == multiset(rows')
  }

  lemma SameReason(receipts: seq<Receipt>, rows: seq<Row>, receipts': seq<Receipt>, rows': seq<Row>, i: nat, i': nat)
    requires Permuted(receipts, rows, receipts', rows')
    requires i < |receipts| && i' < |receipts'| && receipts[i] == receipts'[i']
    ensures ReasonFor(receipts, rows, i) == ReasonFor(receipts', rows', i')
  {
    var d := receipts[i].digest;
    if d.Some? {
      SameCounts(receipts, rows, receipts', rows', d.value);
    }
    SameRowGaps(rows, rows');
    SameRowGaps(rows', rows);
  }

  lemma SameJoin(receipts: seq<Receipt>, rows: seq<Row>, receipts': seq<Receipt>, rows': seq<Row>, tolerance: nat,
                 i: nat, i': nat)
    requires Permuted(receipts, rows, receipts', rows')
    requires i < |receipts| && i' < |receipts'| && receipts[i] == receipts'[i']
    ensures AllHits(receipts, rows, tolerance)[i].Some? ==>
              var h, h' := AllHits(receipts, rows, tolerance)[i], AllHits(receipts', rows', tolerance)[i'];
              h'.Some? && h'.value.legacy == h.value.legacy
  {
    var h, h' := AllHits(receipts, rows, tolerance)[i], AllHits(receipts', rows', tolerance)[i'];
    IdentityJoin(receipts, rows, tolerance, i);
    IdentityJoin(receipts', rows', tolerance, i');
    if h.Some? {
      var j' := Joinable(receipts, rows, receipts', rows', tolerance, receipts[i], h.value.row);
      assert h'.value.row == j';
    }
  }

  /** In the id join a receipt's outcome does not depend on the order of receipts or rows: whether it is matched, by
      which count, and if not, why. */
  lemma IdentityJoinIgnoresOrder(receipts: seq<Receipt>, rows: seq<Row>, receipts': seq<Receipt>, rows': seq<Row>,
                                 tolerance: nat, i: nat, i': nat)
    requires WellMetered(receipts) && WellMetered(receipts') && ByIdentity(receipts, rows)
    requires multiset(receipts) == multiset(receipts') && multiset(rows) == multiset(rows')
    requires i < |receipts| && i' < |receipts'| && receipts[i] == receipts'[i']
    ensures FateOf(receipts, rows, tolerance, i) == FateOf(receipts', rows', tolerance, i')
  {
    SameBasis(receipts, rows, receipts', rows');
    SameJoin(receipts, rows, receipts', rows', tolerance, i, i');
    SameJoin(receipts', rows', receipts, rows, tolerance, i', i);
    SameReason(receipts, rows, receipts', rows', i, i');
  }

  lemma {:induction false} UnmatchedNone(receipts: seq<Receipt>, rows: seq<Row>, hits: seq<Option<Hit>>)
    requires |hits| <= |receipts|
    ensures Unmatched(receipts, rows, hits) == [] <==> forall i :: 0 <= i < |hits| ==> hits[i].Some?
  {
    if hits != [] {
      UnmatchedNone(receipts, rows, hits[..|hits| - 1]);
    }
  }

  lemma AllMatchedPermuted(receipts: seq<Receipt>, rows: seq<Row>, receipts': seq<Receipt>, rows': seq<Row>,
                           tolerance: nat)
    requires Permuted(receipts, rows, receipts', rows')
    requires Unmatched(receipts, rows, AllHits(receipts, rows, tolerance)) == []
    ensures Unmatched(receipts', rows', AllHits(receipts', rows', tolerance)) == []
  {
    var hits, hits' := AllHits(receipts, rows, tolerance), AllHits(receipts', rows', tolerance);
    UnmatchedNone(receipts, rows, hits);
    UnmatchedNone(receipts', rows', hits');
    forall i' | 0 <= i' < |hits'| ensures hits'[i'].Some? {
      assert receipts'[i'] in multiset(receipts);
      var i :| 0 <= i < |receipts| && receipts[i] == receipts'[i'];
      SameJoin(receipts, rows, receipts', rows', tolerance, i, i');
    }
  }

  /** Nor does the verdict. */
  lemma IdentityVerdictIgnoresOrder(receipts: seq<Receipt>, rows: seq<Row>, receipts': seq<Receipt>, rows': seq<Row>,
                                    tolerance: nat)
    requires WellMetered(receipts) && WellMetered(receipts') && ByIdentity(receipts, rows)
    requires multiset(receipts) == multiset(receipts') && multiset(rows) == multiset(rows')
    ensures ReportOf(receipts, rows, tolerance).verdict == ReportOf(receipts', rows', tolerance).verdict
  {
    SameBasis(receipts, rows, receipts', rows');
    assert |receipts| == |multiset(receipts)| == |multiset(receipts')| == |receipts'|;
    if Unmatched(receipts, rows, AllHits(receipts, rows, tolerance)) == [] {
      AllMatchedPermuted(receipts, rows, receipts', rows', tolerance);
    } else if Unmatched(receipts', rows', AllHits(receipts', rows', tolerance)) == [] {
      AllMatchedPermuted(receipts', rows', receipts, rows, tolerance);
    }
  }
}
