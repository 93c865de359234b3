/** `assess_links`: explicit links between usage rows, provider rows and receipts. */
module UsageLink {
  import opened Options
  import opened Totals

  datatype Identity = Identity(provider: string, scope: string, namespace: string, request: string)

  /** A row: its explicit identity (`None` when it is missing or malformed), and the rest of it. */
  datatype Row = Row(identity: Option<Identity>, rest: string)

  datatype Receipt = Receipt(id: Option<string>, rest: string)

  /** What `prepare_link` returns for a pair of rows: the canonical text of the report row and its amount. */
  datatype Prepared = Prepared(report: string, kry: real)

  /** What is not computed here: the checks of `prepare_link` other than on identities, the hash of an identity, the
      semantic and opening checks of a receipt against a prepared row, and the hash of a report's contents. */
  datatype Profile = Profile(prepare: (Row, Row) -> Option<Prepared>, identityHash: Identity -> string,
                             opens: (Receipt, Prepared) -> bool, seal: (seq<ReportRow>, nat, int, real) -> string)

  /** A link as it comes in; `None` marks a field of the wrong type. */
  datatype Item = BadShape | Item(usage: Option<int>, provider: Option<int>, receipt: Option<string>, report: string)

  datatype ReportRow = ReportRow(prepared: Prepared, receiptId: string, receipt: Receipt)

  datatype Report = Report(rows: seq<ReportRow>, linked: nat, excluded: int, kry: real, sha256: string)

  datatype Error =
    | NonemptyRowsRequired
    | InvalidShape
    | InvalidReference
    | DuplicateReference
    | AmbiguousReceipt
    | UnsupportedPair
    | MixedNamespaces
    | DuplicateIdentity
    | ReportRowMismatch
    | ReceiptMismatch
    | IncompleteCoverage

  function PrepareLink(c: Profile, usage: Row, provider: Row): Option<Prepared> {
    if usage.identity.None? || provider.identity.None? || usage.identity != provider.identity then None
    else c.prepare(usage, provider)
  }

  /** `Counter(...)[rid]` */
  function CountId(receipts: seq<Receipt>, rid: string): nat {
    if receipts == [] then 0
    else CountId(receipts[..|receipts| - 1], rid) + if receipts[|receipts| - 1].id == Some(rid) then 1 else 0
  }

  /** `by_id[rid]`: the last receipt with that id. */
  function ById(receipts: seq<Receipt>, rid: string): Option<Receipt> {
    if receipts == [] then None
    else if receipts[|receipts| - 1].id == Some(rid) then Some(receipts[|receipts| - 1])
    else ById(receipts[..|receipts| - 1], rid)
  }

  datatype Inputs = Inputs(receipts: seq<Receipt>, usage: seq<Row>, provider: seq<Row>)

  /** The references of a link resolve. */
  predicate Resolves(x: Inputs, item: Item) {
    && item.Item? && item.usage.Some? && 0 <= item.usage.value < |x.usage|
    && item.provider.Some? && 0 <= item.provider.value < |x.provider|
    && item.receipt.Some? && ById(x.receipts, item.receipt.value).Some?
  }

  function PreparedFor(c: Profile, x: Inputs, item: Item): Option<Prepared>
    requires Resolves(x, item)
  {
    PrepareLink(c, x.usage[item.usage.value], x.provider[item.provider.value])
  }

  /** Everything that is checked of a link by itself. */
  predicate LinkOk(c: Profile, x: Inputs, item: Item) {
    && Resolves(x, item)
    && CountId(x.receipts, item.receipt.value) == 1
    && PreparedFor(c, x, item).Some?
    && item.report == PreparedFor(c, x, item).value.report
    && c.opens(ById(x.receipts, item.receipt.value).value, PreparedFor(c, x, item).value)
  }

  /** What a link that is fine by itself claims: a usage row, a provider row and a receipt for one identity. */
  datatype Claim = Claim(usage: int, provider: int, identity: Identity, hash: string, row: ReportRow)

  function ClaimOf(c: Profile, x: Inputs, item: Item): Option<Claim> {
    if !LinkOk(c, x, item) then None
    else
      var id := x.usage[item.usage.value].identity.value;
      Some(Claim(item.usage.value, item.provider.value, id, c.identityHash(id),
                 ReportRow(PreparedFor(c, x, item).value, item.receipt.value,
                           ById(x.receipts, item.receipt.value).value)))
  }

  function Scope(i: Identity): (string, string) {
    (i.provider, i.scope)
  }

  /** What two links must not share, and the namespace that two links of one account must share. */
  predicate Compatible(a: Claim, b: Claim) {
    && a.usage != b.usage && a.provider != b.provider && a.row.receiptId != b.row.receiptId && a.hash != b.hash
    && (Scope(a.identity) == Scope(b.identity) ==> a.identity.namespace == b.identity.namespace)
  }

  ghost predicate PairwiseCompatible(claims: seq<Claim>) {
    forall k, l :: 0 <= k < l < |claims| ==> Compatible(claims[k], claims[l])
  }

  ghost predicate AllOk(c: Profile, x: Inputs, links: seq<Item>) {
    forall k :: 0 <= k < |links| ==> LinkOk(c, x, links[k])
  }

  ghost function Claims(c: Profile, x: Inputs, links: seq<Item>): (claims: seq<Claim>)
    requires AllOk(c, x, links)
    ensures |claims| == |links| && forall k :: 0 <= k < |links| ==> Some(claims[k]) == ClaimOf(c, x, links[k])
  {
    if links == [] then []
    else Claims(c, x, links[..|links| - 1]) + [ClaimOf(c, x, links[|links| - 1]).value]
  }

  function ReportRows(claims: seq<Claim>): (rows: seq<ReportRow>)
    ensures |rows| == |claims| && forall k :: 0 <= k < |claims| ==> rows[k] == claims[k].row
  {
    if claims == [] then [] else ReportRows(claims[..|claims| - 1]) + [claims[|claims| - 1].row]
  }

  /** The links that are accepted: all fine, pairwise compatible, as many as there are rows on either side. */
  ghost predicate Accepts(c: Profile, x: Inputs, links: seq<Item>) {
    && x.usage != [] && x.provider != [] && links != []
    && AllOk(c, x, links) && PairwiseCompatible(Claims(c, x, links))
    && |links| == |x.usage| == |x.provider|
  }

  // ---------------------------------------------------------------- the report order

  /** Lexicographic order of receipt ids. */
  predicate Less(a: string, b: string)
    decreases a
  {
    b != "" && (a == "" || a[0] < b[0] || (a[0] == b[0] && Less(a[1..], b[1..])))
  }

  function Insert(row: ReportRow, rows: seq<ReportRow>): seq<ReportRow> {
    if rows == [] || !Less(rows[0].receiptId, row.receiptId) then [row] + rows
    else [rows[0]] + Insert(row, rows[1..])
  }

  /** `report_rows.sort(key=receipt_id)` */
  function SortById(rows: seq<ReportRow>): seq<ReportRow> {
    if rows == [] then [] else Insert(rows[0], SortById(rows[1..]))
  }

  function KryOf(): ReportRow -> real {
    (row: ReportRow) => row.prepared.kry
  }

  /** The report with these rows, already sorted, over `receipts` receipts. */
  function Sealed(c: Profile, sorted: seq<ReportRow>, linked: nat, receipts: nat): Report {
    var kry := SumOf(sorted, KryOf());
    Report(sorted, linked, receipts - linked, kry, c.seal(sorted, linked, receipts - linked, kry))
  }

  ghost function ReportFor(c: Profile, x: Inputs, links: seq<Item>): Report
    requires AllOk(c, x, links)
  {
    Sealed(c, SortById(ReportRows(Claims(c, x, links))), |links|, |x.receipts|)
  }

  // ------------------------------------------------------------------------ the loop

  /** The sets and the dictionary that the loop keeps. */
  datatype Ledger = Ledger(usage: set<int>, provider: set<int>, receipts: set<string>, identities: set<string>,
                           namespaces: map<(string, string), string>)

  /** One link against what has been seen. */
  function LinkError(c: Profile, x: Inputs, item: Item, l: Ledger): Option<Error> {
    if !item.Item? then Some(InvalidShape)
    else if !Resolves(x, item) then Some(InvalidReference)
    else if item.usage.value in l.usage || item.provider.value in l.provider || item.receipt.value in l.receipts then
      Some(DuplicateReference)
    else if CountId(x.receipts, item.receipt.value) != 1 then Some(AmbiguousReceipt)
    else if PreparedFor(c, x, item).None? then Some(UnsupportedPair)
    else
      var id, row := x.usage[item.usage.value].identity.value, PreparedFor(c, x, item).value;
      if Scope(id) in l.namespaces && l.namespaces[Scope(id)] != id.namespace then Some(MixedNamespaces)
      else if c.identityHash(id) in l.identities then Some(DuplicateIdentity)
      else if item.report != row.report then Some(ReportRowMismatch)
      else if !c.opens(ById(x.receipts, item.receipt.value).value, row) then Some(ReceiptMismatch)
      else None
  }

  predicate Fresh(l: Ledger, b: Claim) {
    && b.usage !in l.usage && b.provider !in l.provider && b.row.receiptId !in l.receipts && b.hash !in l.identities
    && (Scope(b.identity) in l.namespaces ==> l.namespaces[Scope(b.identity)] == b.identity.namespace)
  }

  lemma NoErrorIsFresh(c: Profile, x: Inputs, item: Item, l: Ledger)
    ensures LinkError(c, x, item, l).None? <==> ClaimOf(c, x, item).Some? && Fresh(l, ClaimOf(c, x, item).value)
  {
  }

  function Record(l: Ledger, b: Claim): Ledger {
    Ledger(l.usage + {b.usage}, l.provider + {b.provider}, l.receipts + {b.row.receiptId}, l.identities + {b.hash},
           if Scope(b.identity) in l.namespaces then l.namespaces
           else l.namespaces[Scope(b.identity) := b.identity.namespace])
  }

  /** The ledger after the claims `done`. */
  function LedgerOf(done: seq<Claim>): Ledger {
    if done == [] then Ledger({}, {}, {}, {}, map[]) else Record(LedgerOf(done[..|done| - 1]), done[|done| - 1])
  }

  lemma {:induction false} FreshIsCompatible(done: seq<Claim>, b: Claim)
    requires PairwiseCompatible(done)
    ensures Fresh(LedgerOf(done), b) <==> forall k :: 0 <= k < |done| ==> Compatible(done[k], b)
  {
    if done != [] {
      var n := |done| - 1;
      FreshIsCompatible(done[..n], b);
      FreshIsCompatible(done[..n], done[n]);
    }
  }

  lemma {:induction false} LedgerSizes(done: seq<Claim>)
    requires PairwiseCompatible(done)
    ensures var l := LedgerOf(done); |l.usage| == |l.provider| == |l.receipts| == |done|
  {
    if done != [] {
      var n := |done| - 1;
      LedgerSizes(done[..n]);
      FreshIsCompatible(done[..n], done[n]);
    }
  }

  /** The loop's variables after the links `done`. */
  ghost predicate Collected(c: Profile, x: Inputs, done: seq<Item>, seen: Ledger, rows: seq<ReportRow>) {
    AllOk(c, x, done) && PairwiseCompatible(Claims(c, x, done)) &&
    seen == LedgerOf(Claims(c, x, done)) && rows == ReportRows(Claims(c, x, done))
  }

  lemma ClaimsGrow(c: Profile, x: Inputs, done: seq<Item>, item: Item, claim: Claim)
    requires AllOk(c, x, done) && ClaimOf(c, x, item) == Some(claim)
    ensures AllOk(c, x, done + [item]) && Claims(c, x, done + [item]) == Claims(c, x, done) + [claim]
  {
    var now := done + [item];
    assert now[..|done|] == done;
    forall k | 0 <= k < |now| ensures LinkOk(c, x, now[k]) {
      if k < |done| { assert now[k] == done[k]; }
    }
  }

  lemma ResultsGrow(done: seq<Claim>, claim: Claim)
    ensures LedgerOf(done + [claim]) == Record(LedgerOf(done), claim)
    ensures ReportRows(done + [claim]) == ReportRows(done) + [claim.row]
  {
    assert (done + [claim])[..|done|] == done;
  }

  lemma CollectOne(c: Profile, x: Inputs, links: seq<Item>, i: nat, seen: Ledger, rows: seq<ReportRow>, claim: Claim)
    requires i < |links| && Collected(c, x, links[..i], seen, rows)
    requires ClaimOf(c, x, links[i]) == Some(claim) && Fresh(seen, claim)
    ensures Collected(c, x, links[..i + 1], Record(seen, claim), rows + [claim.row])
  {
    assert links[..i + 1] == links[..i] + [links[i]];
    FreshIsCompatible(Claims(c, x, links[..i]), claim);
    ClaimsGrow(c, x, links[..i], links[i], claim);
    ResultsGrow(Claims(c, x, links[..i]), claim);
  }

  /** Link `i` is the first that is refused, on top of the links before it. */
  ghost predicate RefusedAt(c: Profile, x: Inputs, links: seq<Item>, i: nat, e: Error) {
    && i < |links| && AllOk(c, x, links[..i]) && PairwiseCompatible(Claims(c, x, links[..i]))
    && LinkError(c, x, links[i], LedgerOf(Claims(c, x, links[..i]))) == Some(e)
  }

  /** The loop of `assess_links`. */
  method CollectLinks(c: Profile, x: Inputs, links: seq<Item>)
    returns (seen: Ledger, rows: seq<ReportRow>, fault: Option<Error>)
    ensures fault.None? ==> Collected(c, x, links, seen, rows)
    ensures fault.Some? ==> !(AllOk(c, x, links) && PairwiseCompatible(Claims(c, x, links)))
    ensures fault.Some? ==> exists i :: RefusedAt(c, x, links, i, fault.value)
  {
    seen, rows := Ledger({}, {}, {}, {}, map[]), [];
    for i := 0 to |links|
      invariant Collected(c, x, links[..i], seen, rows)
    {
      fault := LinkError(c, x, links[i], seen);
      NoErrorIsFresh(c, x, links[i], seen);
      if fault.Some? {
        Refused(c, x, links, i);
        assert RefusedAt(c, x, links, i, fault.value);
        return;
      }
      var claim := ClaimOf(c, x, links[i]).value;
      CollectOne(c, x, links, i, seen, rows, claim);
      seen, rows := Record(seen, claim), rows + [claim.row];
    }
    assert links[..|links|] == links;
    fault := None;
  }

  /** `sum(row["estimated_kry"] for row in report_rows)` */
  method TotalKry(rows: seq<ReportRow>) returns (kry: real)
    ensures kry == SumOf(rows, KryOf())
  {
    kry := 0.0;
    for i := 0 to |rows|
      invariant kry == SumOf(rows[..i], KryOf())
    {
      assert rows[..i + 1][..i] == rows[..i];
      kry := kry + rows[i].prepared.kry;
    }
    assert rows[..|rows|] == rows;
  }

  method SealReport(c: Profile, rows: seq<ReportRow>, receipts: nat) returns (report: Report)
    ensures report == Sealed(c, SortById(rows), |rows|, receipts)
  {
    var sorted := SortById(rows);
    SortSize(rows);
    var kry := TotalKry(sorted);
    report := Report(sorted, |sorted|, receipts - |sorted|, kry, c.seal(sorted, |sorted|, receipts - |sorted|, kry));
  }

  /** `assess_links`, after the attestation has been verified. */
  method AssessLinks(c: Profile, x: Inputs, links: seq<Item>) returns (report: Option<Report>, e: Option<Error>)
    ensures report.Some? <==> e.None?
    ensures report.Some? <==> Accepts(c, x, links)
    ensures report.Some? ==> report.value == ReportFor(c, x, links)
    ensures e.Some? ==>
              if x.usage == [] || x.provider == [] || links == [] then e == Some(NonemptyRowsRequired)
              else if AllOk(c, x, links) && PairwiseCompatible(Claims(c, x, links)) then e == Some(IncompleteCoverage)
              else exists i :: RefusedAt(c, x, links, i, e.value)
  {
    if x.usage == [] || x.provider == [] || links == [] { return None, Some(NonemptyRowsRequired); }
    var seen, rows, fault := CollectLinks(c, x, links);
    if fault.Some? { return None, fault; }
    LedgerSizes(Claims(c, x, links));
    if |seen.usage| != |x.usage| || |seen.provider| != |x.provider| { return None, Some(IncompleteCoverage); }
    var sealed := SealReport(c, rows, |x.receipts|);
    return Some(sealed), None;
  }

  lemma {:induction false} SortSize(rows: seq<ReportRow>)
    ensures |SortById(rows)| == |rows|
  {
    if rows != [] {
      SortSize(rows[1..]);
      InsertSize(rows[0], SortById(rows[1..]));
    }
  }

  lemma {:induction false} InsertSize(row: ReportRow, rows: seq<ReportRow>)
    ensures |Insert(row, rows)| == |rows| + 1
  {
    if rows != [] && Less(rows[0].receiptId, row.receiptId) {
      InsertSize(row, rows[1..]);
    }
  }

  /** A link that is refused in the loop refutes acceptance. */
  lemma Refused(c: Profile, x: Inputs, links: seq<Item>, i: nat)
    requires i < |links| && AllOk(c, x, links[..i]) && PairwiseCompatible(Claims(c, x, links[..i]))
    requires ClaimOf(c, x, links[i]).Some? ==> !Fresh(LedgerOf(Claims(c, x, links[..i])), ClaimOf(c, x, links[i]).value)
    ensures AllOk(c, x, links) ==> !PairwiseCompatible(Claims(c, x, links))
  {
    if AllOk(c, x, links) {
      var claims, done := Claims(c, x, links), Claims(c, x, links[..i]);
      forall k | 0 <= k < i ensures done[k] == claims[k] {
        assert links[..i][k] == links[k];
      }
      FreshIsCompatible(done, claims[i]);
    }
  }
}
