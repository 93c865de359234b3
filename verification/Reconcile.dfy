/** Per-request reconciliation of provider-metered receipts against a provider's usage rows. */
module Reconcile {
  import opened Options

  /** A receipt: its retained (prompt, completion) counts (`None` when they are malformed), whether it supplies a
      request id in any form, and the join key (`request_id_digest`), which is absent for malformed ids. */
  datatype Receipt = Receipt(metered: Option<(nat, nat)>, hasId: bool, digest: Option<string>)

  /** A normalised provider row; `legacy` is the prompt count without cache tokens, where it differs. */
  datatype Row = Row(tokens: (nat, nat), legacy: Option<nat>, hasId: bool, digest: Option<string>)

  datatype Reason =
    | TokenMismatch
    | MissingReceiptId
    | InvalidReceiptId
    | DuplicateId
    | MissingProviderId
    | InvalidProviderId
    | NoMatchingProviderId

  datatype Verdict = NoReceipts | Reconciled | Discrepancy

  /** A receipt matched to a row, by its full count or by its count without cache tokens. */
  datatype Hit = Hit(row: nat, legacy: bool)

  datatype Report = Report(byIdentity: bool, matched: seq<nat>, unmatched: seq<(nat, Reason)>, legacyMatches: nat,
                           consistency: Option<nat>, verdict: Verdict)

  function Apart(a: nat, b: nat): nat {
    if a < b then b - a else a - b
  }

  predicate Close(tolerance: nat, row: Row, tokens: (nat, nat)) {
    Apart(row.tokens.0, tokens.0) <= tolerance && Apart(row.tokens.1, tokens.1) <= tolerance
  }

  predicate LegacyClose(tolerance: nat, row: Row, tokens: (nat, nat)) {
    row.legacy.Some? && Apart(row.legacy.value, tokens.0) <= tolerance && Apart(row.tokens.1, tokens.1) <= tolerance
  }

  predicate AnyReceiptId(receipts: seq<Receipt>) {
    exists i :: 0 <= i < |receipts| && receipts[i].hasId
  }

  predicate AnyRowId(rows: seq<Row>) {
    exists j :: 0 <= j < |rows| && rows[j].hasId
  }

  predicate ByIdentity(receipts: seq<Receipt>, rows: seq<Row>) {
    AnyReceiptId(receipts) || AnyRowId(rows)
  }

  /** `receipt_counts[identity]` */
  function CountDigest(receipts: seq<Receipt>, d: Option<string>): nat {
    if receipts == [] then 0
    else CountDigest(receipts[..|receipts| - 1], d) + if receipts[|receipts| - 1].digest == d then 1 else 0
  }

  /** `provider_index.get(identity, [])`: the rows with that join key, in order. */
  function RowsWith(rows: seq<Row>, d: string): seq<nat> {
    if rows == [] then []
    else
      var n := |rows| - 1;
      RowsWith(rows[..n], d) + if rows[n].digest == Some(d) then [n] else []
  }

  function Range(n: nat): (r: seq<nat>)
    ensures |r| == n && forall k :: 0 <= k < n ==> r[k] == k
  {
    if n == 0 then [] else Range(n - 1) + [n - 1]
  }

  /** The rows a receipt may be matched to: all of them without ids, otherwise the one row with its join key,
      provided that the key is unique on both sides. */
  function Candidates(receipts: seq<Receipt>, rows: seq<Row>, i: nat): seq<nat>
    requires i < |receipts|
  {
    var d := receipts[i].digest;
    if !ByIdentity(receipts, rows) then Range(|rows|)
    else if d.Some? && CountDigest(receipts, d) == 1 && |RowsWith(rows, d.value)| == 1 then RowsWith(rows, d.value)
    else []
  }

  predicate Fits(tolerance: nat, row: Row, tokens: (nat, nat), legacy: bool) {
    if legacy then LegacyClose(tolerance, row, tokens) else Close(tolerance, row, tokens)
  }

  /** The first candidate that is free and fits. */
  function FirstFree(rows: seq<Row>, candidates: seq<nat>, used: set<nat>, tokens: (nat, nat), tolerance: nat,
                     legacy: bool): Option<nat>
  {
    if candidates == [] then None
    else
      var j := candidates[0];
      if j < |rows| && j !in used && Fits(tolerance, rows[j], tokens, legacy) then Some(j)
      else FirstFree(rows, candidates[1..], used, tokens, tolerance, legacy)
  }

  /** A full count is preferred over a count without cache tokens. */
  function Pick(rows: seq<Row>, candidates: seq<nat>, used: set<nat>, tokens: (nat, nat), tolerance: nat): Option<Hit> {
    match FirstFree(rows, candidates, used, tokens, tolerance, false)
    case Some(j) => Some(Hit(j, false))
    case None =>
      match FirstFree(rows, candidates, used, tokens, tolerance, true)
      case Some(j) => Some(Hit(j, true))
      case None => None
  }

  /** Rows taken by the receipts so far. */
  function Taken(hits: seq<Option<Hit>>): set<nat> {
    if hits == [] then {}
    else
      var last := hits[|hits| - 1];
      Taken(hits[..|hits| - 1]) + if last.Some? then {last.value.row} else {}
  }

  predicate WellMetered(receipts: seq<Receipt>) {
    forall i :: 0 <= i < |receipts| ==> receipts[i].metered.Some?
  }

  /** What the loop has found for the first `n` receipts. */
  function Hits(receipts: seq<Receipt>, rows: seq<Row>, tolerance: nat, n: nat): (hits: seq<Option<Hit>>)
    requires n <= |receipts| && WellMetered(receipts)
    ensures |hits| == n
  {
    if n == 0 then []
    else
      var before := Hits(receipts, rows, tolerance, n - 1);
      before + [Pick(rows, Candidates(receipts, rows, n - 1), Taken(before), receipts[n - 1].metered.value, tolerance)]
  }

  function AllHits(receipts: seq<Receipt>, rows: seq<Row>, tolerance: nat): (hits: seq<Option<Hit>>)
    requires WellMetered(receipts)
    ensures |hits| == |receipts|
  {
    Hits(receipts, rows, tolerance, |receipts|)
  }

  function Matched(hits: seq<Option<Hit>>): seq<nat> {
    if hits == [] then []
    else
      var n := |hits| - 1;
      Matched(hits[..n]) + if hits[n].Some? then [n] else []
  }

  function LegacyCount(hits: seq<Option<Hit>>): nat {
    if hits == [] then 0
    else
      var n := |hits| - 1;
      LegacyCount(hits[..n]) + if hits[n].Some? && hits[n].value.legacy then 1 else 0
  }

  predicate AnyRowWithoutId(rows: seq<Row>) {
    exists j :: 0 <= j < |rows| && !rows[j].hasId
  }

  predicate AnyRowWithoutDigest(rows: seq<Row>) {
    exists j :: 0 <= j < |rows| && rows[j].digest.None?
  }

  /** Why a receipt was left over. */
  function ReasonFor(receipts: seq<Receipt>, rows: seq<Row>, i: nat): Reason
    requires i < |receipts|
  {
    var r := receipts[i];
    if !ByIdentity(receipts, rows) then TokenMismatch
    else if !r.hasId then MissingReceiptId
    else if r.digest.None? then InvalidReceiptId
    else if CountDigest(receipts, r.digest) > 1 || |RowsWith(rows, r.digest.value)| > 1 then DuplicateId
    else if RowsWith(rows, r.digest.value) == [] then
      if AnyRowWithoutId(rows) then MissingProviderId
      else if AnyRowWithoutDigest(rows) then InvalidProviderId
      else NoMatchingProviderId
    else TokenMismatch
  }

  function Unmatched(receipts: seq<Receipt>, rows: seq<Row>, hits: seq<Option<Hit>>): seq<(nat, Reason)>
    requires |hits| <= |receipts|
  {
    if hits == [] then []
    else
      var n := |hits| - 1;
      Unmatched(receipts, rows, hits[..n]) + if hits[n].None? then [(n, ReasonFor(receipts, rows, n))] else []
  }

  function StripReceipts(receipts: seq<Receipt>): (r: seq<Receipt>)
    ensures |r| == |receipts| && forall i :: 0 <= i < |r| ==> r[i] == Receipt(receipts[i].metered, false, None)
  {
    if receipts == [] then [] else [Receipt(receipts[0].metered, false, None)] + StripReceipts(receipts[1..])
  }

  function StripRows(rows: seq<Row>): (r: seq<Row>)
    ensures |r| == |rows| && forall j :: 0 <= j < |r| ==> r[j] == Row(rows[j].tokens, rows[j].legacy, false, None)
  {
    if rows == [] then [] else [Row(rows[0].tokens, rows[0].legacy, false, None)] + StripRows(rows[1..])
  }

  // ------------------------------------------------------------------ the loops

  lemma IndexGrows(rows: seq<Row>, n: nat)
    requires n < |rows|
    ensures forall d :: RowsWith(rows[..n + 1], d) ==
                        RowsWith(rows[..n], d) + if rows[n].digest == Some(d) then [n] else []
  {
    assert rows[..n + 1][..n] == rows[..n];
  }

  method BuildIndex(rows: seq<Row>) returns (index: map<string, seq<nat>>)
    ensures forall d :: (if d in index then index[d] else []) == RowsWith(rows, d)
  {
    index := map[];
    for n := 0 to |rows|
      invariant forall d :: (if d in index then index[d] else []) == RowsWith(rows[..n], d)
    {
      IndexGrows(rows, n);
      var id := rows[n].digest;
      if id.Some? {
        var seen := if id.value in index then index[id.value] else [];
        index := index[id.value := seen + [n]];
      }
    }
    assert rows[..|rows|] == rows;
  }

  method CountReceiptIds(receipts: seq<Receipt>) returns (counts: map<Option<string>, nat>)
    ensures forall d :: (if d in counts then counts[d] else 0) == CountDigest(receipts, d)
  {
    counts := map[];
    for n := 0 to |receipts|
      invariant forall d :: (if d in counts then counts[d] else 0) == CountDigest(receipts[..n], d)
    {
      assert receipts[..n + 1][..n] == receipts[..n];
      var id := receipts[n].digest;
      counts := counts[id := (if id in counts then counts[id] else 0) + 1];
    }
    assert receipts[..|receipts|] == receipts;
  }

  /** One of the two scans over the candidates: the first row that is not used and fits. */
  method ScanCandidates(rows: seq<Row>, candidates: seq<nat>, used: array<bool>, tokens: (nat, nat), tolerance: nat,
                        legacy: bool, ghost taken: set<nat>) returns (hit: Option<nat>)
    requires used.Length == |rows| && forall k :: 0 <= k < |candidates| ==> candidates[k] < |rows|
    requires forall j :: 0 <= j < |rows| ==> (used[j] <==> j in taken)
    ensures hit == FirstFree(rows, candidates, taken, tokens, tolerance, legacy)
    ensures hit.Some? ==> hit.value < |rows|
  {
    for k := 0 to |candidates|
      invariant FirstFree(rows, candidates, taken, tokens, tolerance, legacy) ==
                FirstFree(rows, candidates[k..], taken, tokens, tolerance, legacy)
    {
      var j := candidates[k];
      assert candidates[k..][0] == j && candidates[k..][1..] == candidates[k + 1..];
      if !used[j] && Fits(tolerance, rows[j], tokens, legacy) { return Some(j); }
    }
    return None;
  }

  lemma {:induction false} RowsInRange(rows: seq<Row>, d: string)
    ensures forall k :: 0 <= k < |RowsWith(rows, d)| ==> RowsWith(rows, d)[k] < |rows|
    ensures forall j :: j in RowsWith(rows, d) <==> 0 <= j < |rows| && rows[j].digest == Some(d)
  {
    if rows != [] {
      RowsInRange(rows[..|rows| - 1], d);
    }
  }

  lemma {:induction false} CountedOnce(receipts: seq<Receipt>, i: nat)
    requires i < |receipts|
    ensures CountDigest(receipts, receipts[i].digest) >= 1
  {
    if i < |receipts| - 1 {
      CountedOnce(receipts[..|receipts| - 1], i);
    }
  }

  /** The candidates of receipt `i`, from the histograms. */
  method SelectCandidates(receipts: seq<Receipt>, rows: seq<Row>, i: nat, byIdentity: bool,
                          index: map<string, seq<nat>>, counts: map<Option<string>, nat>) returns (candidates: seq<nat>)
    requires i < |receipts| && byIdentity == ByIdentity(receipts, rows)
    requires forall d :: (if d in index then index[d] else []) == RowsWith(rows, d)
    requires forall d :: (if d in counts then counts[d] else 0) == CountDigest(receipts, d)
    ensures candidates == Candidates(receipts, rows, i)
    ensures forall k :: 0 <= k < |candidates| ==> candidates[k] < |rows|
  {
    candidates := Range(|rows|);
    if byIdentity {
      var id := receipts[i].digest;
      CountedOnce(receipts, i);
      var identified := if id.Some? && id.value in index then index[id.value] else [];
      candidates := if id.Some? && counts[id] == 1 && |identified| == 1 then identified else [];
      if id.Some? { RowsInRange(rows, id.value); }
    }
  }

  /** The two scans for one receipt; a hit is marked as used. */
  method MatchOne(rows: seq<Row>, candidates: seq<nat>, used: array<bool>, tokens: (nat, nat), tolerance: nat,
                  ghost taken: set<nat>) returns (hit: Option<Hit>)
    requires used.Length == |rows| && forall k :: 0 <= k < |candidates| ==> candidates[k] < |rows|
    requires forall j :: 0 <= j < |rows| ==> (used[j] <==> j in taken)
    modifies used
    ensures hit == Pick(rows, candidates, taken, tokens, tolerance)
    ensures forall j :: 0 <= j < |rows| ==> (used[j] <==> j in taken + if hit.Some? then {hit.value.row} else {})
  {
    var row := ScanCandidates(rows, candidates, used, tokens, tolerance, false, taken);
    var legacy := false;
    if row.None? {
      row := ScanCandidates(rows, candidates, used, tokens, tolerance, true, taken);
      legacy := row.Some?;
    }
    if row.None? { return None; }
    used[row.value] := true;
    return Some(Hit(row.value, legacy));
  }

  /** One more receipt: what it adds to the loop's results. */
  lemma HitsGrow(receipts: seq<Receipt>, rows: seq<Row>, hits: seq<Option<Hit>>, hit: Option<Hit>)
    requires |hits| < |receipts|
    ensures var more := hits + [hit];
            && Taken(more) == Taken(hits) + (if hit.Some? then {hit.value.row} else {})
            && Matched(more) == (if hit.Some? then Matched(hits) + [|hits|] else Matched(hits))
            && Unmatched(receipts, rows, more) ==
               Unmatched(receipts, rows, hits) +
               (if hit.Some? then [] else [(|hits|, ReasonFor(receipts, rows, |hits|))])
            && LegacyCount(more) == LegacyCount(hits) + if hit.Some? && hit.value.legacy then 1 else 0
  {
    assert (hits + [hit])[..|hits|] == hits;
  }

  /** The hits so far are those of the specification, if no receipt is malformed. */
  ghost predicate HitsSoFar(receipts: seq<Receipt>, rows: seq<Row>, tolerance: nat, hits: seq<Option<Hit>>) {
    |hits| <= |receipts| && (WellMetered(receipts) ==> hits == Hits(receipts, rows, tolerance, |hits|))
  }

  lemma HitsNext(receipts: seq<Receipt>, rows: seq<Row>, tolerance: nat, hits: seq<Option<Hit>>, hit: Option<Hit>)
    requires HitsSoFar(receipts, rows, tolerance, hits) && |hits| < |receipts| && receipts[|hits|].metered.Some?
    requires hit == Pick(rows, Candidates(receipts, rows, |hits|), Taken(hits), receipts[|hits|].metered.value,
                         tolerance)
    ensures HitsSoFar(receipts, rows, tolerance, hits + [hit])
  {
  }

  /** The matching loop: the loop's results, or the first malformed receipt. */
  method MatchAll(receipts: seq<Receipt>, rows: seq<Row>, tolerance: nat)
    returns (matched: seq<nat>, unmatched: seq<(nat, Reason)>, legacyMatches: nat, bad: Option<nat>)
    ensures bad.None? <==> WellMetered(receipts)
    ensures bad.Some? ==> FirstMalformed(receipts, bad.value)
    ensures bad.None? ==>
              var hits := AllHits(receipts, rows, tolerance);
              matched == Matched(hits) && unmatched == Unmatched(receipts, rows, hits) &&
                  legacyMatches == LegacyCount(hits)
  {
    var byIdentity := ByIdentity(receipts, rows);
    var index := BuildIndex(rows);
    var counts := CountReceiptIds(receipts);
    var used := new bool[|rows|](_ => false);
    matched, unmatched, legacyMatches := [], [], 0;
    ghost var hits: seq<Option<Hit>> := [];
    for i := 0 to |receipts|
      invariant forall k :: 0 <= k < i ==> receipts[k].metered.Some?
      invariant |hits| == i && HitsSoFar(receipts, rows, tolerance, hits)
      invariant forall j :: 0 <= j < |rows| ==> (used[j] <==> j in Taken(hits))
      invariant matched == Matched(hits) && legacyMatches == LegacyCount(hits)
      invariant unmatched == Unmatched(receipts, rows, hits)
    {
      if receipts[i].metered.None? { return matched, unmatched, legacyMatches, Some(i); }
      var candidates := SelectCandidates(receipts, rows, i, byIdentity, index, counts);
      var hit := MatchOne(rows, candidates, used, receipts[i].metered.value, tolerance, Taken(hits));
      HitsGrow(receipts, rows, hits, hit);
      HitsNext(receipts, rows, tolerance, hits, hit);
      if hit.Some? {
        legacyMatches := legacyMatches + if hit.value.legacy then 1 else 0;
        matched := matched + [i];
      } else {
        unmatched := unmatched + [(i, ReasonFor(receipts, rows, i))];
      }
      hits := hits + [hit];
    }
    bad := None;
  }

  ghost predicate FirstMalformed(receipts: seq<Receipt>, i: nat) {
    i < |receipts| && receipts[i].metered.None? && forall k :: 0 <= k < i ==> receipts[k].metered.Some?
  }

  function VerdictOf(receipts: seq<Receipt>, unmatched: seq<(nat, Reason)>): Verdict {
    if receipts == [] then NoReceipts else if unmatched == [] then Reconciled else Discrepancy
  }

  /** The report that the specification gives. */
  function ReportOf(receipts: seq<Receipt>, rows: seq<Row>, tolerance: nat): Report
    requires WellMetered(receipts)
  {
    var hits := AllHits(receipts, rows, tolerance);
    var unmatched := Unmatched(receipts, rows, hits);
    Report(ByIdentity(receipts, rows), Matched(hits), unmatched, LegacyCount(hits),
           if ByIdentity(receipts, rows) && unmatched != [] then
             Some(|Matched(AllHits(StripReceipts(receipts), StripRows(rows), tolerance))|) else None,
           VerdictOf(receipts, unmatched))
  }

  /** `reconcile` once its input is normalised; without ids it does not call itself. */
  method ReconcileRows(receipts: seq<Receipt>, rows: seq<Row>, tolerance: nat) returns (r: Report, bad: Option<nat>)
    ensures bad.None? <==> WellMetered(receipts)
    ensures bad.Some? ==> FirstMalformed(receipts, bad.value)
    ensures bad.None? ==> r == ReportOf(receipts, rows, tolerance)
    decreases ByIdentity(receipts, rows)
  {
    var matched, unmatched, legacyMatches, e := MatchAll(receipts, rows, tolerance);
    bad := e;
    var byIdentity := ByIdentity(receipts, rows);
    var consistency: Option<nat> := None;
    if bad.None? && byIdentity && unmatched != [] {
      var counts, _ := ReconcileRows(StripReceipts(receipts), StripRows(rows), tolerance);
      consistency := Some(|counts.matched|);
    }
    r := Report(byIdentity, matched, unmatched, legacyMatches, consistency, VerdictOf(receipts, unmatched));
  }

  /** A report, or the ValueError of a tolerance that is no natural number, of a provider record that cannot be
      normalised, or of a receipt with malformed counts: the first of them, in this order. */
  datatype Outcome = Done(report: Report) | BadTolerance | BadRecord(index: nat) | BadReceipt(index: nat)

  ghost predicate FirstBadRecord(records: seq<Option<Row>>, i: nat) {
    i < |records| && records[i].None? && forall k :: 0 <= k < i ==> records[k].Some?
  }

  ghost predicate Normalised(records: seq<Option<Row>>, rows: seq<Row>) {
    |rows| == |records| && forall k :: 0 <= k < |rows| ==> records[k] == Some(rows[k])
  }

  /** `reconcile`: provider records come as their normal form, or `None` where normalising raises. */
  method ReconcileReceipts(receipts: seq<Receipt>, records: seq<Option<Row>>, tolerance: Option<nat>)
    returns (r: Outcome)
    ensures r.BadTolerance? <==> tolerance.None?
    ensures r.BadRecord? ==> FirstBadRecord(records, r.index)
    ensures r.BadReceipt? ==> FirstMalformed(receipts, r.index) && forall k :: 0 <= k < |records| ==> records[k].Some?
    ensures r.Done? <==> tolerance.Some? && WellMetered(receipts) && forall k :: 0 <= k < |records| ==> records[k].Some?
    ensures r.Done? ==>
              exists rows :: Normalised(records, rows) && r.report == ReportOf(receipts, rows, tolerance.value)
  {
    if tolerance.None? { return BadTolerance; }
    var rows: seq<Row> := [];
    for i := 0 to |records|
      invariant Normalised(records[..i], rows)
    {
      if records[i].None? {
        assert forall k :: 0 <= k < i ==> records[..i][k] == records[k];
        return BadRecord(i);
      }
      rows := rows + [records[i].value];
    }
    assert Normalised(records, rows);
    var report, bad := ReconcileRows(receipts, rows, tolerance.value);
    return if bad.Some? then BadReceipt(bad.value) else Done(report);
  }
}
