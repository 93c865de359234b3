/** Without ids: what the greedy token matcher achieves, and where it depends on the order of its input. */
module ReconcileGreedy {
  import opened Options
  import opened Reconcile
  import opened ReconcileJoin
  import opened Totals

  /** Rows that the receipts before `i` have left over. */
  ghost predicate FreeAt(rows: seq<Row>, hits: seq<Option<Hit>>, i: nat, j: int) {
    0 <= j < |rows| && forall k :: 0 <= k < |hits| && k < i && hits[k].Some? ==> hits[k].value.row != j
  }

  /** Receipt `i` has the first row free at its turn that fits it, by the full count if any does; none if none fits
      either way. */
  ghost predicate Settled(receipts: seq<Receipt>, rows: seq<Row>, tolerance: nat, hits: seq<Option<Hit>>, i: nat)
    requires i < |receipts| == |hits| && receipts[i].metered.Some?
  {
    var m := receipts[i].metered.value;
    match hits[i]
    case Some(h) =>
      && FreeAt(rows, hits, i, h.row)
      && (if h.legacy then LegacyFit(tolerance, rows[h.row], m) else FullFit(tolerance, rows[h.row], m))
      && forall j :: FreeAt(rows, hits, i, j) ==>
           (FullFit(tolerance, rows[j], m) ==> !h.legacy && h.row <= j) &&
           (h.legacy && LegacyFit(tolerance, rows[j], m) ==> h.row <= j)
    case None =>
      forall j :: FreeAt(rows, hits, i, j) ==> !FullFit(tolerance, rows[j], m) && !LegacyFit(tolerance, rows[j], m)
  }

  lemma {:induction false} FirstIsLowest(rows: seq<Row>, cs: seq<nat>, used: set<nat>, tokens: (nat, nat),
                                         tolerance: nat, legacy: bool)
    requires forall a, b :: 0 <= a < b < |cs| ==> cs[a] < cs[b]
    ensures var first := FirstFree(rows, cs, used, tokens, tolerance, legacy);
            forall j <- cs :: j < |rows| && j !in used && Fits(tolerance, rows[j], tokens, legacy) ==>
              first.Some? && first.value <= j
  {
    if cs != [] {
      FirstIsLowest(rows, cs[1..], used, tokens, tolerance, legacy);
    }
  }

  /** With all rows as candidates the first free one is picked, by the full count if any fits by that. */
  lemma PickFromAll(rows: seq<Row>, used: set<nat>, m: (nat, nat), tolerance: nat)
    ensures var h := Pick(rows, Range(|rows|), used, m, tolerance);
            && (h.Some? ==> h.value.row < |rows| && h.value.row !in used &&
                            Fits(tolerance, rows[h.value.row], m, h.value.legacy))
            && (forall j :: 0 <= j < |rows| && j !in used && Close(tolerance, rows[j], m) ==>
                  h.Some? && !h.value.legacy && h.value.row <= j)
            && (forall j :: 0 <= j < |rows| && j !in used && LegacyClose(tolerance, rows[j], m) ==>
                  h.Some? && (h.value.legacy ==> h.value.row <= j))
  {
    var all := Range(|rows|);
    PickFacts(rows, all, used, m, tolerance);
    FirstIsLowest(rows, all, used, m, tolerance, false);
    FirstIsLowest(rows, all, used, m, tolerance, true);
    forall j | 0 <= j < |rows| ensures j in all {
      assert all[j] == j;
    }
    assert forall j :: 0 <= j < |rows| ==> Fits(tolerance, rows[j], m, false) == Close(tolerance, rows[j], m);
    assert forall j :: 0 <= j < |rows| ==> Fits(tolerance, rows[j], m, true) == LegacyClose(tolerance, rows[j], m);
  }

  /** The matching is the greedy one: one-to-one on rows that fit, the first free one each time, and it cannot be
      extended: a receipt left over fits no row that is still free at its turn, hence none that is free at the end. */
  lemma GreedyIsMaximal(receipts: seq<Receipt>, rows: seq<Row>, tolerance: nat, i: nat)
    requires WellMetered(receipts) && !ByIdentity(receipts, rows) && i < |receipts|
    ensures Settled(receipts, rows, tolerance, AllHits(receipts, rows, tolerance), i)
  {
    var hits := AllHits(receipts, rows, tolerance);
    HitAt(receipts, rows, tolerance, i);
    PickFromAll(rows, Taken(hits[..i]), receipts[i].metered.value, tolerance);
    forall j | 0 <= j < |rows| ensures j !in Taken(hits[..i]) <==> FreeAt(rows, hits, i, j) {
      TakenRow(hits[..i], j);
    }
  }

  // -------------------------------------------------------- how far from the best

  /** A one-to-one assignment of receipts to rows that fit them. */
  ghost predicate Assignment(receipts: seq<Receipt>, rows: seq<Row>, tolerance: nat, rowOf: map<nat, nat>) {
    && (forall i <- rowOf :: i < |receipts| && receipts[i].metered.Some? && rowOf[i] < |rows| &&
          (FullFit(tolerance, rows[rowOf[i]], receipts[i].metered.value) ||
           LegacyFit(tolerance, rows[rowOf[i]], receipts[i].metered.value)))
    && (forall i, k :: i in rowOf && k in rowOf && i != k ==> rowOf[i] != rowOf[k])
  }

  function MatchedSet(hits: seq<Option<Hit>>): set<nat> {
    set i: nat | i < |hits| && hits[i].Some?
  }

  /** As many receipts are matched as are listed, and at most as many rows are taken. */
  lemma {:induction false} MatchedSizes(hits: seq<Option<Hit>>)
    ensures |MatchedSet(hits)| == |Matched(hits)| && |Taken(hits)| <= |Matched(hits)|
  {
    if hits != [] {
      var n := |hits| - 1;
      MatchedSizes(hits[..n]);
      assert MatchedSet(hits) == MatchedSet(hits[..n]) + if hits[n].Some? then {n} else {};
    }
  }

  /** A one-to-one map into `b` is from no more than `|b|`. */
  lemma {:induction false} InjectedSize(a: set<nat>, rowOf: map<nat, nat>, b: set<nat>)
    requires a <= rowOf.Keys && forall i <- a :: rowOf[i] in b
    requires forall i, k :: i in rowOf && k in rowOf && i != k ==> rowOf[i] != rowOf[k]
    ensures |a| <= |b|
    decreases |a|
  {
    if a != {} {
      var i :| i in a;
      InjectedSize(a - {i}, rowOf, b - {rowOf[i]});
    }
  }

  /** The greedy matcher finds at least half as many matches as any one-to-one assignment has. */
  lemma AtLeastHalf(receipts: seq<Receipt>, rows: seq<Row>, tolerance: nat, rowOf: map<nat, nat>)
    requires WellMetered(receipts) && !ByIdentity(receipts, rows) && Assignment(receipts, rows, tolerance, rowOf)
    ensures |rowOf| <= 2 * |Matched(AllHits(receipts, rows, tolerance))|
  {
    var hits := AllHits(receipts, rows, tolerance);
    var left := rowOf.Keys - MatchedSet(hits);
    forall i | i in left ensures rowOf[i] in Taken(hits) {
      GreedyIsMaximal(receipts, rows, tolerance, i);
      TakenRow(hits, rowOf[i]);
    }
    MatchedSizes(hits);
    InjectedSize(left, rowOf, Taken(hits));
    SplitSize(rowOf.Keys, MatchedSet(hits));
  }

  lemma SplitSize(a: set<nat>, b: set<nat>)
    ensures |a| <= |a - b| + |b|
  {
    assert a == (a - b) + (a * b);
    assert b == (a * b) + (b - a);
  }

  // ------------------------------------------------------------- exact counts

  function Pairs(receipts: seq<Receipt>): multiset<(nat, nat)>
    requires WellMetered(receipts)
  {
    if receipts == [] then multiset{}
    else Pairs(receipts[..|receipts| - 1]) + multiset{receipts[|receipts| - 1].metered.value}
  }

  function RowPairs(rows: seq<Row>): multiset<(nat, nat)> {
    if rows == [] then multiset{} else RowPairs(rows[..|rows| - 1]) + multiset{rows[|rows| - 1].tokens}
  }

  /** Token pairs of the used rows. */
  function UsedPairs(rows: seq<Row>, used: set<nat>): multiset<(nat, nat)> {
    if rows == [] then multiset{}
    else
      var n := |rows| - 1;
      UsedPairs(rows[..n], used) + if n in used then multiset{rows[n].tokens} else multiset{}
  }

  ghost predicate HasFree(rows: seq<Row>, used: set<nat>, x: (nat, nat)) {
    exists j :: 0 <= j < |rows| && IsFree(rows, used, x, j)
  }

  predicate IsFree(rows: seq<Row>, used: set<nat>, x: (nat, nat), j: nat)
    requires j < |rows|
  {
    j !in used && rows[j].tokens == x
  }

  lemma HasFreeLast(rows: seq<Row>, used: set<nat>, x: (nat, nat))
    requires rows != []
    ensures HasFree(rows, used, x) <==> HasFree(rows[..|rows| - 1], used, x) || IsFree(rows, used, x, |rows| - 1)
  {
    var n := |rows| - 1;
    assert forall j :: 0 <= j < n ==> IsFree(rows[..n], used, x, j) == IsFree(rows, used, x, j);
  }

  /** A free row with tokens `x` exists exactly when not all of them are used. */
  lemma {:induction false} FreeRow(rows: seq<Row>, used: set<nat>, x: (nat, nat))
    ensures UsedPairs(rows, used)[x] <= RowPairs(rows)[x]
    ensures UsedPairs(rows, used)[x] < RowPairs(rows)[x] <==> HasFree(rows, used, x)
  {
    if rows != [] {
      FreeRow(rows[..|rows| - 1], used, x);
      HasFreeLast(rows, used, x);
    }
  }

  lemma {:induction false} UseRow(rows: seq<Row>, used: set<nat>, j: nat)
    requires j !in used
    ensures UsedPairs(rows, used + {j}) ==
            UsedPairs(rows, used) + if j < |rows| then multiset{rows[j].tokens} else multiset{}
  {
    if rows != [] {
      var n := |rows| - 1;
      UseRow(rows[..n], used, j);
      var own := if n in used then multiset{rows[n].tokens} else multiset{};
      var added := if j < n then multiset{rows[j].tokens} else multiset{};
      assert n in used + {j} <==> n in used || n == j;
    }
  }

  predicate Exact(rows: seq<Row>) {
    forall j :: 0 <= j < |rows| ==> rows[j].legacy.None?
  }

  /** One receipt, exact counts: it takes a row with its own tokens exactly when one is free. */
  lemma PickExact(rows: seq<Row>, used: set<nat>, x: (nat, nat))
    requires Exact(rows)
    ensures var h := Pick(rows, Range(|rows|), used, x, 0);
            && (h.Some? <==> UsedPairs(rows, used)[x] < RowPairs(rows)[x])
            && (h.Some? ==> h.value.row < |rows| && h.value.row !in used && rows[h.value.row].tokens == x)
  {
    PickFacts(rows, Range(|rows|), used, x, 0);
    FreeRow(rows, used, x);
    var h := Pick(rows, Range(|rows|), used, x, 0);
    if h.Some? {
      assert IsFree(rows, used, x, h.value.row);
    } else {
      if j :| 0 <= j < |rows| && IsFree(rows, used, x, j) {
        assert Range(|rows|)[j] == j && Close(0, rows[j], x);
      }
    }
  }

  /** The used rows carry the multiset intersection of the pairs seen so far with the pairs on offer. */
  lemma {:induction false} GreedyMeets(receipts: seq<Receipt>, rows: seq<Row>, n: nat)
    requires WellMetered(receipts) && !ByIdentity(receipts, rows) && Exact(rows) && n <= |receipts|
    ensures var hits := Hits(receipts, rows, 0, n);
            && UsedPairs(rows, Taken(hits)) == Pairs(receipts[..n]) * RowPairs(rows)
            && |UsedPairs(rows, Taken(hits))| == |Matched(hits)|
  {
    if n == 0 {
      NoneUsed(rows);
    } else {
      GreedyMeets(receipts, rows, n - 1);
      OneMorePair(receipts, n - 1);
      GreedyStep(rows, Hits(receipts, rows, 0, n - 1), Pairs(receipts[..n - 1]), receipts[n - 1].metered.value);
    }
  }

  lemma OneMorePair(receipts: seq<Receipt>, n: nat)
    requires WellMetered(receipts) && n < |receipts|
    ensures Pairs(receipts[..n + 1]) == Pairs(receipts[..n]) + multiset{receipts[n].metered.value}
  {
    assert receipts[..n + 1][..n] == receipts[..n];
  }

  lemma GreedyStep(rows: seq<Row>, before: seq<Option<Hit>>, p: multiset<(nat, nat)>, x: (nat, nat))
    requires Exact(rows) && UsedPairs(rows, Taken(before)) == p * RowPairs(rows)
    requires |UsedPairs(rows, Taken(before))| == |Matched(before)|
    ensures var hits := before + [Pick(rows, Range(|rows|), Taken(before), x, 0)];
            && UsedPairs(rows, Taken(hits)) == (p + multiset{x}) * RowPairs(rows)
            && |UsedPairs(rows, Taken(hits))| == |Matched(hits)|
  {
    var h := Pick(rows, Range(|rows|), Taken(before), x, 0);
    PickExact(rows, Taken(before), x);
    MeetStep(p, RowPairs(rows), x);
    OneMore(before, h);
    if h.Some? {
      UseRow(rows, Taken(before), h.value.row);
    }
  }

  lemma MeetStep(p: multiset<(nat, nat)>, q: multiset<(nat, nat)>, x: (nat, nat))
    ensures (p + multiset{x}) * q == if (p * q)[x] < q[x] then p * q + multiset{x} else p * q
  {
  }

  lemma OneMore(before: seq<Option<Hit>>, h: Option<Hit>)
    ensures Taken(before + [h]) == if h.Some? then Taken(before) + {h.value.row} else Taken(before)
    ensures |Matched(before + [h])| == |Matched(before)| + if h.Some? then 1 else 0
  {
    assert (before + [h])[..|before|] == before;
  }

  lemma {:induction false} NoneUsed(rows: seq<Row>)
    ensures UsedPairs(rows, {}) == multiset{}
  {
    if rows != [] {
      NoneUsed(rows[..|rows| - 1]);
    }
  }

  /** With no ids, tolerance 0 and one count per row, the number of matches is the size of the multiset
      intersection of the token pairs; so the verdict is RECONCILED exactly when the receipts
      are a non-empty sub-multiset of the rows. */
  lemma ExactMatchCount(receipts: seq<Receipt>, rows: seq<Row>)
    requires WellMetered(receipts) && !ByIdentity(receipts, rows) && Exact(rows)
    ensures var hits := AllHits(receipts, rows, 0);
            && |Matched(hits)| == |Pairs(receipts) * RowPairs(rows)|
            && (Unmatched(receipts, rows, hits) == [] <==> Pairs(receipts) <= RowPairs(rows))
  {
    var hits := AllHits(receipts, rows, 0);
    GreedyMeets(receipts, rows, |receipts|);
    assert receipts[..|receipts|] == receipts;
    NobodyLost(receipts, rows, hits);
    PairsSize(receipts);
    var p, q := Pairs(receipts), RowPairs(rows);
    assert p == p * q + (p - q);
    assert p <= q <==> p - q == multiset{};
  }

  lemma {:induction false} PairsSize(receipts: seq<Receipt>)
    requires WellMetered(receipts)
    ensures |Pairs(receipts)| == |receipts|
  {
    if receipts != [] {
      PairsSize(receipts[..|receipts| - 1]);
    }
  }

  // ------------------------------------------------------- when order matters

  lemma {:induction false} PairsCount(receipts: seq<Receipt>, x: (nat, nat), q: Receipt -> bool)
    requires WellMetered(receipts) && forall r :: q(r) <==> r.metered == Some(x)
    ensures Pairs(receipts)[x] == CountIf(receipts, q)
  {
    if receipts != [] {
      PairsCount(receipts[..|receipts| - 1], x, q);
    }
  }

  lemma {:induction false} RowPairsCount(rows: seq<Row>, x: (nat, nat), q: Row -> bool)
    requires forall w :: q(w) <==> w.tokens == x
    ensures RowPairs(rows)[x] == CountIf(rows, q)
  {
    if rows != [] {
      RowPairsCount(rows[..|rows| - 1], x, q);
    }
  }

  lemma PairsIgnoreOrder(receipts: seq<Receipt>, receipts': seq<Receipt>)
    requires WellMetered(receipts) && WellMetered(receipts') && multiset(receipts) == multiset(receipts')
    ensures Pairs(receipts) == Pairs(receipts')
  {
    forall x ensures Pairs(receipts)[x] == Pairs(receipts')[x] {
      var q := (r: Receipt) => r.metered == Some(x);
      PairsCount(receipts, x, q);
      PairsCount(receipts', x, q);
      CountPermuted(receipts, receipts', q);
    }
  }

  lemma RowPairsIgnoreOrder(rows: seq<Row>, rows': seq<Row>)
    requires multiset(rows) == multiset(rows')
    ensures RowPairs(rows) == RowPairs(rows')
  {
    forall x ensures RowPairs(rows)[x] == RowPairs(rows')[x] {
      var q := (w: Row) => w.tokens == x;
      RowPairsCount(rows, x, q);
      RowPairsCount(rows', x, q);
      CountPermuted(rows, rows', q);
    }
  }

  /** The same receipts and the same rows, none with an id, in two orders. */
  ghost predicate Reordered(receipts: seq<Receipt>, rows: seq<Row>, receipts': seq<Receipt>, rows': seq<Row>) {
    && WellMetered(receipts) && WellMetered(receipts')
    && !ByIdentity(receipts, rows) && !ByIdentity(receipts', rows')
    && multiset(receipts) == multiset(receipts') && multiset(rows) == multiset(rows')
  }

  /** Without ids the number of matches depends on what is given and not on its order: over all receipts and rows,
      where rows may have a count without cache tokens only if `legacy`. */
  ghost predicate OrderFree(tolerance: nat, legacy: bool) {
    forall receipts, rows, receipts', rows' ::
      Reordered(receipts, rows, receipts', rows') && (legacy || (Exact(rows) && Exact(rows'))) ==>
        |Matched(AllHits(receipts, rows, tolerance))| == |Matched(AllHits(receipts', rows', tolerance))|
  }

  /** The token matching ignores order exactly at tolerance 0 over rows without a legacy count. */
  lemma OrderMattersExactly(tolerance: nat, legacy: bool)
    ensures OrderFree(tolerance, legacy) <==> tolerance == 0 && !legacy
  {
    if tolerance > 0 {
      ToleranceDependsOnOrder(tolerance);
      Counterexample(tolerance, legacy, [ToleranceReceipt(tolerance, false), ToleranceReceipt(tolerance, true)],
                     [ToleranceReceipt(tolerance, true), ToleranceReceipt(tolerance, false)], ToleranceRows(tolerance));
    } else if legacy {
      LegacyDependsOnOrder();
      Counterexample(0, true, [TokensOnly(10, 5), TokensOnly(3, 5)], [TokensOnly(3, 5), TokensOnly(10, 5)],
                     LegacyRows());
    } else {
      forall receipts, rows, receipts', rows' |
        Reordered(receipts, rows, receipts', rows') && Exact(rows) && Exact(rows')
        ensures |Matched(AllHits(receipts, rows, 0))| == |Matched(AllHits(receipts', rows', 0))|
      {
        SameExactCount(receipts, rows, receipts', rows');
      }
    }
  }

  lemma Counterexample(tolerance: nat, legacy: bool, receipts: seq<Receipt>, receipts': seq<Receipt>, rows: seq<Row>)
    requires Reordered(receipts, rows, receipts', rows) && (legacy || Exact(rows))
    requires |Matched(AllHits(receipts, rows, tolerance))| != |Matched(AllHits(receipts', rows, tolerance))|
    ensures !OrderFree(tolerance, legacy)
  {
  }

  lemma SameExactCount(receipts: seq<Receipt>, rows: seq<Row>, receipts': seq<Receipt>, rows': seq<Row>)
    requires Reordered(receipts, rows, receipts', rows') && Exact(rows) && Exact(rows')
    ensures |Matched(AllHits(receipts, rows, 0))| == |Matched(AllHits(receipts', rows', 0))|
  {
    ExactMatchCount(receipts, rows);
    ExactMatchCount(receipts', rows');
    PairsIgnoreOrder(receipts, receipts');
    RowPairsIgnoreOrder(rows, rows');
  }

  function TokensOnly(prompt: nat, completion: nat): Receipt {
    Receipt(Some((prompt, completion)), false, None)
  }

  function ToleranceReceipt(t: nat, late: bool): Receipt {
    TokensOnly(if late then t else 0, 0)
  }

  function ToleranceRows(t: nat): seq<Row> {
    [Row((t, 0), None, false, None), Row((2 * t, 0), None, false, None)]
  }

  function LegacyRows(): seq<Row> {
    [Row((10, 5), Some(3), false, None), Row((10, 5), None, false, None)]
  }

  lemma TolerancePicks(t: nat, rows: seq<Row>)
    requires t > 0 && rows == ToleranceRows(t)
    ensures PickOfTwo(rows, {}, (0, 0), t) == Some(Hit(0, false)) && PickOfTwo(rows, {0}, (0, 0), t) == None
    ensures PickOfTwo(rows, {}, (t, 0), t) == Some(Hit(0, false))
    ensures PickOfTwo(rows, {0}, (t, 0), t) == Some(Hit(1, false))
  {
  }

  /** With any positive tolerance the same two receipts and two rows give two matches or one. */
  lemma ToleranceDependsOnOrder(t: nat)
    requires t > 0
    ensures var a, b, rows := ToleranceReceipt(t, false), ToleranceReceipt(t, true), ToleranceRows(t);
            && Reordered([a, b], rows, [b, a], rows) && Exact(rows)
            && |Matched(AllHits([a, b], rows, t))| == 2 && |Matched(AllHits([b, a], rows, t))| == 1
  {
    var a, b, rows := ToleranceReceipt(t, false), ToleranceReceipt(t, true), ToleranceRows(t);
    TolerancePicks(t, rows);
    TwoReceipts(a, b, rows, t);
    TwoReceipts(b, a, rows, t);
    Swapped(a, b);
  }

  /** The factor of two cannot be improved: the worse order matches one receipt where two can be assigned. */
  lemma HalfIsAttained(t: nat)
    requires t > 0
    ensures var receipts, rows := [ToleranceReceipt(t, true), ToleranceReceipt(t, false)], ToleranceRows(t);
            Assignment(receipts, rows, t, map[0 := 1, 1 := 0]) && |Matched(AllHits(receipts, rows, t))| == 1
  {
    ToleranceDependsOnOrder(t);
    var rowOf: map<nat, nat> := map[0 := 1, 1 := 0];
    var receipts, rows := [ToleranceReceipt(t, true), ToleranceReceipt(t, false)], ToleranceRows(t);
    assert FullFit(t, rows[rowOf[0]], receipts[0].metered.value);
    assert FullFit(t, rows[rowOf[1]], receipts[1].metered.value);
  }

  /** With counts without cache tokens it happens even at tolerance 0. */
  lemma LegacyDependsOnOrder()
    ensures var a, b, rows := TokensOnly(10, 5), TokensOnly(3, 5), LegacyRows();
            && Reordered([a, b], rows, [b, a], rows)
            && |Matched(AllHits([a, b], rows, 0))| == 1 && |Matched(AllHits([b, a], rows, 0))| == 2
  {
    var a, b, rows := TokensOnly(10, 5), TokensOnly(3, 5), LegacyRows();
    LegacyPicks(rows);
    TwoReceipts(a, b, rows, 0);
    TwoReceipts(b, a, rows, 0);
    Swapped(a, b);
  }

  lemma LegacyPicks(rows: seq<Row>)
    requires rows == LegacyRows()
    ensures PickOfTwo(rows, {}, (10, 5), 0) == Some(Hit(0, false)) && PickOfTwo(rows, {0}, (3, 5), 0) == None
    ensures PickOfTwo(rows, {}, (3, 5), 0) == Some(Hit(0, true))
    ensures PickOfTwo(rows, {0}, (10, 5), 0) == Some(Hit(1, false))
  {
  }

  lemma Swapped<T>(a: T, b: T)
    ensures multiset([a, b]) == multiset([b, a])
  {
  }

  /** The scan over two rows. */
  function FirstOfTwo(rows: seq<Row>, used: set<nat>, tokens: (nat, nat), t: nat, legacy: bool): Option<nat>
    requires |rows| == 2
  {
    if 0 !in used && Fits(t, rows[0], tokens, legacy) then Some(0)
    else if 1 !in used && Fits(t, rows[1], tokens, legacy) then Some(1)
    else None
  }

  function PickOfTwo(rows: seq<Row>, used: set<nat>, tokens: (nat, nat), t: nat): Option<Hit>
    requires |rows| == 2
  {
    var full, legacy := FirstOfTwo(rows, used, tokens, t, false), FirstOfTwo(rows, used, tokens, t, true);
    if full.Some? then Some(Hit(full.value, false))
    else if legacy.Some? then Some(Hit(legacy.value, true))
    else None
  }

  lemma TwoRows(rows: seq<Row>, used: set<nat>, tokens: (nat, nat), t: nat)
    requires |rows| == 2
    ensures Pick(rows, [0, 1], used, tokens, t) == PickOfTwo(rows, used, tokens, t)
  {
    assert [0, 1][1..] == [1] && [1][1..] == [];
    forall legacy
      ensures FirstFree(rows, [0, 1], used, tokens, t, legacy) == FirstOfTwo(rows, used, tokens, t, legacy)
    {
      assert FirstFree(rows, [1], used, tokens, t, legacy) ==
             if 1 !in used && Fits(t, rows[1], tokens, legacy) then Some(1) else None;
    }
  }

  /** Two receipts over two rows: the second finds what the first has left. */
  lemma TwoReceipts(r: Receipt, q: Receipt, rows: seq<Row>, t: nat)
    requires |rows| == 2 && r.metered.Some? && q.metered.Some? && !ByIdentity([r, q], rows)
    ensures var first := PickOfTwo(rows, {}, r.metered.value, t);
            var second := PickOfTwo(rows, if first.Some? then {first.value.row} else {}, q.metered.value, t);
            |Matched(AllHits([r, q], rows, t))| == (if first.Some? then 1 else 0) + if second.Some? then 1 else 0
  {
    var first := Pick(rows, [0, 1], {}, r.metered.value, t);
    var none: seq<Option<Hit>> := [];
    assert Range(2) == [0, 1];
    assert Hits([r, q], rows, t, 0) == none && none + [first] == [first];
    assert Hits([r, q], rows, t, 1) == [first];
    assert [first][..0] == none;
    assert Taken([first]) == if first.Some? then {first.value.row} else {};
    var second := Pick(rows, [0, 1], Taken([first]), q.metered.value, t);
    assert Hits([r, q], rows, t, 2) == [first] + [second];
    assert ([first] + [second])[..1] == [first];
    assert Matched([first]) == if first.Some? then [0] else [];
    TwoRows(rows, {}, r.metered.value, t);
    TwoRows(rows, Taken([first]), q.metered.value, t);
  }
}
