/** Accepted links force the pairing of rows, and the report does not depend on their order. */
module UsageLinkProof {
  import opened Options
  import opened Totals
  import opened UsageLink

  // ------------------------------------------------------------------ coverage

  ghost function Below(n: nat): (s: set<int>)
    ensures |s| == n && forall v :: v in s <==> 0 <= v < n
  {
    if n == 0 then {} else Below(n - 1) + {n - 1}
  }

  lemma {:induction false} DistinctSize(s: seq<int>)
    requires forall k, l :: 0 <= k < l < |s| ==> s[k] != s[l]
    ensures |set v | v in s| == |s|
  {
    if s != [] {
      var n := |s| - 1;
      DistinctSize(s[..n]);
      var before := set v | v in s[..n];
      assert s == s[..n] + [s[n]];
      assert (set v | v in s) == before + {s[n]};
    }
  }

  /** n different numbers below n are all of them. */
  lemma AllCovered(s: seq<int>, v: int)
    requires forall k, l :: 0 <= k < l < |s| ==> s[k] != s[l]
    requires forall k :: 0 <= k < |s| ==> 0 <= s[k] < |s|
    requires 0 <= v < |s|
    ensures v in s
  {
    DistinctSize(s);
    var used := set w | w in s;
    assert used <= Below(|s|);
    assert Below(|s|) == used + (Below(|s|) - used);
    assert v in used;
  }

  ghost function UsageIndices(claims: seq<Claim>): (s: seq<int>)
    ensures |s| == |claims| && forall k :: 0 <= k < |claims| ==> s[k] == claims[k].usage
  {
    seq(|claims|, k requires 0 <= k < |claims| => claims[k].usage)
  }

  ghost function ProviderIndices(claims: seq<Claim>): (s: seq<int>)
    ensures |s| == |claims| && forall k :: 0 <= k < |claims| ==> s[k] == claims[k].provider
  {
    seq(|claims|, k requires 0 <= k < |claims| => claims[k].provider)
  }

  ghost predicate LinksUsage(claims: seq<Claim>, u: int) {
    exists k :: 0 <= k < |claims| && claims[k].usage == u
  }

  ghost predicate LinksProvider(claims: seq<Claim>, p: int) {
    exists k :: 0 <= k < |claims| && claims[k].provider == p
  }

  /** Every usage row and every provider row is linked, and by exactly one link. */
  lemma LinksAreBijection(c: Profile, x: Inputs, links: seq<Item>)
    requires Accepts(c, x, links)
    ensures forall u :: 0 <= u < |x.usage| ==> LinksUsage(Claims(c, x, links), u)
    ensures forall p :: 0 <= p < |x.provider| ==> LinksProvider(Claims(c, x, links), p)
    ensures forall k, l :: 0 <= k < l < |links| ==> Claims(c, x, links)[k].usage != Claims(c, x, links)[l].usage &&
                                                    Claims(c, x, links)[k].provider != Claims(c, x, links)[l].provider
  {
    var claims := Claims(c, x, links);
    var us, ps := UsageIndices(claims), ProviderIndices(claims);
    forall k | 0 <= k < |links| ensures 0 <= us[k] < |links| && 0 <= ps[k] < |links| {
    }
    forall k, l | 0 <= k < l < |links| ensures us[k] != us[l] && ps[k] != ps[l] {
      assert Compatible(claims[k], claims[l]);
    }
    forall u | 0 <= u < |x.usage| ensures LinksUsage(claims, u) {
      AllCovered(us, u);
      var k :| 0 <= k < |us| && us[k] == u;
      assert claims[k].usage == u;
    }
    forall p | 0 <= p < |x.provider| ensures LinksProvider(claims, p) {
      AllCovered(ps, p);
      var k :| 0 <= k < |ps| && ps[k] == p;
      assert claims[k].provider == p;
    }
  }

  /** The accepted pairing is the only one that preserves identities. */
  lemma PairingIsForced(c: Profile, x: Inputs, links: seq<Item>, pairing: seq<nat>, k: nat)
    requires Accepts(c, x, links) && |pairing| == |x.usage| && k < |links|
    requires forall u :: 0 <= u < |x.usage| ==>
               pairing[u] < |x.provider| && x.provider[pairing[u]].identity == x.usage[u].identity
    ensures links[k].Item? && links[k].usage.Some? && 0 <= links[k].usage.value < |pairing|
    ensures links[k].provider == Some(pairing[links[k].usage.value])
  {
    var claims := Claims(c, x, links);
    LinksAreBijection(c, x, links);
    var q := pairing[claims[k].usage];
    assert LinksProvider(claims, q);
    var l :| 0 <= l < |links| && claims[l].provider == q;
  }

  // --------------------------------------------------------------- conservation

  function CountLinked(receipts: seq<Receipt>, ids: set<string>): nat {
    if receipts == [] then 0
    else
      var n := |receipts| - 1;
      CountLinked(receipts[..n], ids) + if receipts[n].id.Some? && receipts[n].id.value in ids then 1 else 0
  }

  lemma {:induction false} CountWithout(receipts: seq<Receipt>, ids: set<string>, r: string)
    requires r in ids
    ensures CountLinked(receipts, ids) == CountLinked(receipts, ids - {r}) + CountId(receipts, r)
  {
    if receipts != [] {
      CountWithout(receipts[..|receipts| - 1], ids, r);
    }
  }

  lemma {:induction false} CountEmpty(receipts: seq<Receipt>)
    ensures CountLinked(receipts, {}) == 0
  {
    if receipts != [] {
      CountEmpty(receipts[..|receipts| - 1]);
    }
  }

  lemma {:induction false} EachOnce(receipts: seq<Receipt>, ids: set<string>)
    requires forall r <- ids :: CountId(receipts, r) == 1
    ensures CountLinked(receipts, ids) == |ids|
    decreases |ids|
  {
    if ids == {} {
      CountEmpty(receipts);
    } else {
      var r :| r in ids;
      CountWithout(receipts, ids, r);
      EachOnce(receipts, ids - {r});
    }
  }

  lemma {:induction false} LedgerReceipts(done: seq<Claim>, r: string)
    requires r in LedgerOf(done).receipts
    ensures exists k :: 0 <= k < |done| && done[k].row.receiptId == r
  {
    var n := |done| - 1;
    if r != done[n].row.receiptId {
      LedgerReceipts(done[..n], r);
      var k :| 0 <= k < n && done[..n][k].row.receiptId == r;
      assert done[k] == done[..n][k];
    }
  }

  /** The attestation's receipts split into the linked ones, one per link, and the excluded ones. */
  lemma NothingUncounted(c: Profile, x: Inputs, links: seq<Item>)
    requires Accepts(c, x, links)
    ensures var ids := LedgerOf(Claims(c, x, links)).receipts;
            CountLinked(x.receipts, ids) == |links| <= |x.receipts| &&
            ReportFor(c, x, links).excluded == |x.receipts| - CountLinked(x.receipts, ids)
  {
    var claims := Claims(c, x, links);
    var ids := LedgerOf(claims).receipts;
    LedgerSizes(claims);
    forall r | r in ids ensures CountId(x.receipts, r) == 1 {
      LedgerReceipts(claims, r);
      var k :| 0 <= k < |claims| && claims[k].row.receiptId == r;
    }
    EachOnce(x.receipts, ids);
    LinkedBound(x.receipts, ids);
  }

  lemma {:induction false} LinkedBound(receipts: seq<Receipt>, ids: set<string>)
    ensures CountLinked(receipts, ids) <= |receipts|
  {
    if receipts != [] {
      LinkedBound(receipts[..|receipts| - 1], ids);
    }
  }

  // ----------------------------------------------------------- order of the links

  lemma {:induction false} LessIsStrict(a: string)
    ensures !Less(a, a)
    decreases a
  {
    if a != "" {
      LessIsStrict(a[1..]);
    }
  }

  lemma {:induction false} LessTransitive(a: string, b: string, d: string)
    requires Less(a, b) && Less(b, d)
    ensures Less(a, d)
    decreases a
  {
    if a != "" && a[0] == b[0] && b[0] == d[0] {
      LessTransitive(a[1..], b[1..], d[1..]);
    }
  }

  lemma {:induction false} LessTotal(a: string, b: string)
    ensures a == b || Less(a, b) || Less(b, a)
    decreases a
  {
    if a != "" && b != "" && a[0] == b[0] {
      LessTotal(a[1..], b[1..]);
      assert a == [a[0]] + a[1..] && b == [b[0]] + b[1..];
    }
  }

  predicate Increasing(rows: seq<ReportRow>) {
    forall k, l :: 0 <= k < l < |rows| ==> Less(rows[k].receiptId, rows[l].receiptId)
  }

  lemma {:induction false} InsertFacts(row: ReportRow, rows: seq<ReportRow>)
    requires Increasing(rows) && forall k :: 0 <= k < |rows| ==> rows[k].receiptId != row.receiptId
    ensures Increasing(Insert(row, rows))
    ensures forall r :: r in Insert(row, rows) <==> r == row || r in rows
  {
    if rows == [] || !Less(rows[0].receiptId, row.receiptId) {
      var all := [row] + rows;
      if rows != [] {
        LessTotal(rows[0].receiptId, row.receiptId);
      }
      forall l | 1 <= l < |all| ensures Less(row.receiptId, all[l].receiptId) {
        if l > 1 {
          LessTransitive(row.receiptId, rows[0].receiptId, rows[l - 1].receiptId);
        }
      }
    } else {
      var rest := Insert(row, rows[1..]);
      InsertFacts(row, rows[1..]);
      forall l | 0 <= l < |rest| ensures Less(rows[0].receiptId, rest[l].receiptId) {
        assert rest[l] in rest;
        if rest[l] != row {
          var j :| 0 <= j < |rows[1..]| && rows[1..][j] == rest[l];
          assert rest[l] == rows[j + 1];
        }
      }
    }
  }

  ghost predicate DistinctIds(rows: seq<ReportRow>) {
    forall k, l :: 0 <= k < l < |rows| ==> rows[k].receiptId != rows[l].receiptId
  }

  lemma {:induction false} SortFacts(rows: seq<ReportRow>)
    requires DistinctIds(rows)
    ensures Increasing(SortById(rows))
    ensures forall r :: r in SortById(rows) <==> r in rows
  {
    if rows != [] {
      SortFacts(rows[1..]);
      var sorted := SortById(rows[1..]);
      forall k | 0 <= k < |sorted| ensures sorted[k].receiptId != rows[0].receiptId {
        assert sorted[k] in rows[1..];
        var j :| 0 <= j < |rows[1..]| && rows[1..][j] == sorted[k];
        assert rows[j + 1] == sorted[k];
      }
      InsertFacts(rows[0], sorted);
    }
  }

  lemma {:induction false} IncreasingUnique(a: seq<ReportRow>, b: seq<ReportRow>)
    requires Increasing(a) && Increasing(b) && forall r :: r in a <==> r in b
    ensures a == b
  {
    assert (a != [] ==> a[0] in a) && (b != [] ==> b[0] in b);
    if a != [] {
      FirstAgrees(a, b);
      forall r | r in a[1..] || r in b[1..] ensures r in a[1..] && r in b[1..] {
        TailMember(a, r);
        TailMember(b, r);
      }
      IncreasingUnique(a[1..], b[1..]);
      assert a == [a[0]] + a[1..] && b == [b[0]] + b[1..];
    }
  }

  lemma FirstAgrees(a: seq<ReportRow>, b: seq<ReportRow>)
    requires Increasing(a) && Increasing(b) && a != [] && b != [] && a[0] in b && b[0] in a
    ensures a[0] == b[0]
  {
    var j :| 0 <= j < |b| && b[j] == a[0];
    var i :| 0 <= i < |a| && a[i] == b[0];
    LessIsStrict(a[0].receiptId);
    if i > 0 && j > 0 {
      LessTransitive(a[0].receiptId, b[0].receiptId, a[0].receiptId);
    }
  }

  lemma TailMember(a: seq<ReportRow>, r: ReportRow)
    requires Increasing(a) && a != []
    ensures r in a[1..] <==> r in a && r != a[0]
  {
    LessIsStrict(a[0].receiptId);
    if r in a && r != a[0] {
      var k :| 0 <= k < |a| && a[k] == r;
      assert a[1..][k - 1] == r;
    }
    if r in a[1..] {
      var k :| 0 <= k < |a[1..]| && a[1..][k] == r;
      assert a[k + 1] == r;
    }
  }

  lemma OkPermuted(c: Profile, x: Inputs, links: seq<Item>, links': seq<Item>)
    requires multiset(links) == multiset(links') && AllOk(c, x, links)
    ensures AllOk(c, x, links')
  {
    forall k | 0 <= k < |links'| ensures LinkOk(c, x, links'[k]) {
      assert links'[k] in multiset(links);
      var j :| 0 <= j < |links| && links[j] == links'[k];
    }
  }

  lemma {:induction false} Once<T>(s: seq<T>, e: T)
    requires forall k, l :: 0 <= k < l < |s| ==> s[k] != s[l]
    ensures multiset(s)[e] <= 1
  {
    if s != [] {
      var n := |s| - 1;
      assert s == s[..n] + [s[n]];
      Once(s[..n], e);
      assert e == s[n] ==> e !in s[..n];
    }
  }

  lemma {:induction false} Repeated<T>(s: seq<T>, k: nat, l: nat)
    requires k < l < |s| && s[k] == s[l]
    ensures multiset(s)[s[k]] >= 2
  {
    assert s == s[..l] + ([s[l]] + s[l + 1..]);
    assert s[..l][k] == s[k];
    assert s[k] in multiset(s[..l]);
  }

  lemma AcceptedPermuted(c: Profile, x: Inputs, links: seq<Item>, links': seq<Item>)
    requires multiset(links) == multiset(links') && Accepts(c, x, links)
    ensures Accepts(c, x, links')
  {
    OkPermuted(c, x, links, links');
    var claims, claims' := Claims(c, x, links), Claims(c, x, links');
    assert |links| == |multiset(links)| == |multiset(links')| == |links'|;
    forall k, l | 0 <= k < l < |links'| ensures Compatible(claims'[k], claims'[l]) {
      forall m, n | 0 <= m < n < |links| ensures links[m] != links[n] {
      }
      Once(links, links'[k]);
      if links'[k] == links'[l] { Repeated(links', k, l); }
      var i := WhereIs(links, links', k);
      var j := WhereIs(links, links', l);
      assert Some(claims'[k]) == ClaimOf(c, x, links'[k]) && Some(claims'[l]) == ClaimOf(c, x, links'[l]);
      assert Some(claims[i]) == ClaimOf(c, x, links[i]) && Some(claims[j]) == ClaimOf(c, x, links[j]);
      if i < j {
        assert Compatible(claims[i], claims[j]);
      } else {
        assert Compatible(claims[j], claims[i]);
      }
    }
  }

  lemma WhereIs<T>(s: seq<T>, t: seq<T>, k: nat) returns (i: nat)
    requires multiset(s) == multiset(t) && k < |t|
    ensures i < |s| && s[i] == t[k]
  {
    assert t[k] in multiset(s);
    i :| 0 <= i < |s| && s[i] == t[k];
  }

  lemma RowsMember(c: Profile, x: Inputs, links: seq<Item>, links': seq<Item>, r: ReportRow)
    requires multiset(links) == multiset(links') && AllOk(c, x, links) && AllOk(c, x, links')
    requires r in ReportRows(Claims(c, x, links))
    ensures r in ReportRows(Claims(c, x, links'))
  {
    var rows, claims, claims' := ReportRows(Claims(c, x, links)), Claims(c, x, links), Claims(c, x, links');
    var k :| 0 <= k < |rows| && rows[k] == r;
    var i := WhereIs(links', links, k);
    assert Some(claims[k]) == ClaimOf(c, x, links[k]) && Some(claims'[i]) == ClaimOf(c, x, links'[i]);
    assert ReportRows(claims')[i] == r;
  }

  lemma SameSorted(c: Profile, x: Inputs, links: seq<Item>, links': seq<Item>)
    requires multiset(links) == multiset(links') && Accepts(c, x, links) && Accepts(c, x, links')
    ensures SortById(ReportRows(Claims(c, x, links))) == SortById(ReportRows(Claims(c, x, links')))
  {
    var rows, rows' := ReportRows(Claims(c, x, links)), ReportRows(Claims(c, x, links'));
    SortFacts(rows);
    SortFacts(rows');
    forall r | r in rows || r in rows' ensures r in rows && r in rows' {
      if r in rows { RowsMember(c, x, links, links', r); } else { RowsMember(c, x, links', links, r); }
    }
    IncreasingUnique(SortById(rows), SortById(rows'));
  }

  /** Permuting the links changes neither the verdict nor anything in the report. */
  lemma ReportIgnoresOrder(c: Profile, x: Inputs, links: seq<Item>, links': seq<Item>)
    requires multiset(links) == multiset(links')
    ensures Accepts(c, x, links) <==> Accepts(c, x, links')
    ensures Accepts(c, x, links) ==> ReportFor(c, x, links) == ReportFor(c, x, links')
  {
    if Accepts(c, x, links) {
      AcceptedPermuted(c, x, links, links');
      SameSorted(c, x, links, links');
      assert |links| == |multiset(links)| == |multiset(links')| == |links'|;
    } else if Accepts(c, x, links') {
      AcceptedPermuted(c, x, links', links);
    }
  }

  lemma {:induction false} InsertKeeps(row: ReportRow, rows: seq<ReportRow>)
    ensures multiset(Insert(row, rows)) == multiset(rows) + multiset{row}
  {
    if rows != [] && Less(rows[0].receiptId, row.receiptId) {
      InsertKeeps(row, rows[1..]);
      assert rows == [rows[0]] + rows[1..];
    }
  }

  lemma {:induction false} SortKeeps(rows: seq<ReportRow>)
    ensures multiset(SortById(rows)) == multiset(rows)
  {
    if rows != [] {
      SortKeeps(rows[1..]);
      InsertKeeps(rows[0], SortById(rows[1..]));
      assert rows == [rows[0]] + rows[1..];
    }
  }

  lemma RowsAreLinks(c: Profile, x: Inputs, links: seq<Item>)
    requires Accepts(c, x, links)
    ensures var rows, report := ReportRows(Claims(c, x, links)), ReportFor(c, x, links);
            && multiset(report.rows) == multiset(rows) && |report.rows| == |links| == report.linked
            && report.kry == SumOf(report.rows, KryOf())
  {
    SortKeeps(ReportRows(Claims(c, x, links)));
    SortSize(ReportRows(Claims(c, x, links)));
  }

  /** The reported amount is the sum over the links, and the report has one row for each of them. */
  lemma AmountIsTotal(c: Profile, x: Inputs, links: seq<Item>, amount: ReportRow -> real)
    requires Accepts(c, x, links) && forall row :: amount(row) == row.prepared.kry
    ensures var rows, report := ReportRows(Claims(c, x, links)), ReportFor(c, x, links);
            && multiset(report.rows) == multiset(rows) && |report.rows| == |links| == report.linked
            && report.kry == SumOf(rows, amount)
  {
    var rows, report := ReportRows(Claims(c, x, links)), ReportFor(c, x, links);
    RowsAreLinks(c, x, links);
    SumPermuted(report.rows, rows, KryOf());
    SumAgrees(rows, KryOf(), amount);
  }

  /** The report's hash covers its rows, its two counts and its amount. */
  lemma SealCoversReport(c: Profile, x: Inputs, links: seq<Item>)
    requires Accepts(c, x, links)
    ensures var report := ReportFor(c, x, links);
            report.sha256 == c.seal(report.rows, report.linked, report.excluded, report.kry)
  {
  }
}
