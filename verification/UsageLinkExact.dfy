/** Which links are accepted, exactly, and what the report shows of them. */
module UsageLinkExact {
  import opened Options
  import opened UsageLink
  import opened UsageLinkProof

  // ------------------------------------------------------------------------ one link

  /** Receipt `i` carries the id, and no other does. */
  ghost predicate OnlyOne(receipts: seq<Receipt>, rid: string, i: int) {
    0 <= i < |receipts| && receipts[i].id == Some(rid) &&
    forall k :: 0 <= k < |receipts| && k != i ==> receipts[k].id != Some(rid)
  }

  /** The link names a usage row and a provider row with the same explicit identity, from which `row` is prepared,
      repeats its report text, and names the one receipt with its id, which opens to `row`. */
  ghost predicate Supports(c: Profile, x: Inputs, item: Item, i: int, row: Prepared) {
    && item.Item? && item.usage.Some? && item.provider.Some? && item.receipt.Some?
    && 0 <= item.usage.value < |x.usage| && 0 <= item.provider.value < |x.provider|
    && (var u, v := x.usage[item.usage.value], x.provider[item.provider.value];
        u.identity.Some? && v.identity == u.identity && c.prepare(u, v) == Some(row))
    && item.report == row.report
    && OnlyOne(x.receipts, item.receipt.value, i) && c.opens(x.receipts[i], row)
  }

  lemma {:induction false} ByIdFinds(receipts: seq<Receipt>, rid: string)
    ensures ById(receipts, rid).Some? <==> CountId(receipts, rid) > 0
    ensures CountId(receipts, rid) == 1 <==> exists i :: OnlyOne(receipts, rid, i)
    ensures forall i :: OnlyOne(receipts, rid, i) ==> ById(receipts, rid) == Some(receipts[i])
  {
    if receipts != [] {
      var n := |receipts| - 1;
      ByIdFinds(receipts[..n], rid);
      if receipts[n].id == Some(rid) {
        NoneWith(receipts[..n], rid);
        assert CountId(receipts[..n], rid) == 0 ==> OnlyOne(receipts, rid, n);
        assert forall k :: 0 <= k < n ==> receipts[..n][k] == receipts[k];
      } else {
        forall i ensures OnlyOne(receipts, rid, i) <==> OnlyOne(receipts[..n], rid, i) {
          assert forall k :: 0 <= k < n ==> receipts[..n][k] == receipts[k];
        }
      }
    }
  }

  lemma {:induction false} NoneWith(receipts: seq<Receipt>, rid: string)
    ensures CountId(receipts, rid) == 0 <==> forall k :: 0 <= k < |receipts| ==> receipts[k].id != Some(rid)
  {
    if receipts != [] {
      NoneWith(receipts[..|receipts| - 1], rid);
    }
  }

  /** A link is fine by itself exactly when some receipt and some prepared row support it, and it then claims these. */
  lemma LinkExactly(c: Profile, x: Inputs, item: Item)
    ensures LinkOk(c, x, item) <==> exists i, row :: Supports(c, x, item, i, row)
    ensures forall i, row :: Supports(c, x, item, i, row) ==>
              ClaimOf(c, x, item).Some? &&
              ClaimOf(c, x, item).value.row == ReportRow(row, item.receipt.value, x.receipts[i])
  {
    if item.Item? && item.receipt.Some? {
      ByIdFinds(x.receipts, item.receipt.value);
    }
    if LinkOk(c, x, item) {
      var i :| OnlyOne(x.receipts, item.receipt.value, i);
      assert Supports(c, x, item, i, PreparedFor(c, x, item).value);
    }
  }

  // ------------------------------------------------------------------------ all links

  function IdentityOf(x: Inputs, item: Item): Option<Identity> {
    if item.Item? && item.usage.Some? && 0 <= item.usage.value < |x.usage| then x.usage[item.usage.value].identity
    else None
  }

  /** Two links name different rows on both sides, different receipts and identities with different hashes; and rows of
      one provider account use one namespace. */
  predicate Apart(c: Profile, x: Inputs, a: Item, b: Item)
    requires a.Item? && b.Item? && IdentityOf(x, a).Some? && IdentityOf(x, b).Some?
  {
    var i, j := IdentityOf(x, a).value, IdentityOf(x, b).value;
    && a.usage != b.usage && a.provider != b.provider && a.receipt != b.receipt
    && c.identityHash(i) != c.identityHash(j)
    && (i.provider == j.provider && i.scope == j.scope ==> i.namespace == j.namespace)
  }

  ghost predicate Supported(c: Profile, x: Inputs, item: Item) {
    exists i, row :: Supports(c, x, item, i, row)
  }

  lemma CompatibleIsApart(c: Profile, x: Inputs, a: Item, b: Item)
    requires LinkOk(c, x, a) && LinkOk(c, x, b)
    ensures Compatible(ClaimOf(c, x, a).value, ClaimOf(c, x, b).value) <==> Apart(c, x, a, b)
  {
  }

  /** Links are accepted exactly when there are rows on both sides and as many of them on either as links, every link is
      supported by its rows and its receipt, and the links are apart from each other. */
  lemma AcceptsExactly(c: Profile, x: Inputs, links: seq<Item>)
    ensures Accepts(c, x, links) <==>
            && |links| == |x.usage| == |x.provider| > 0
            && (forall k :: 0 <= k < |links| ==> Supported(c, x, links[k]))
            && forall k, l :: 0 <= k < l < |links| ==> Apart(c, x, links[k], links[l])
  {
    forall k | 0 <= k < |links| ensures LinkOk(c, x, links[k]) <==> Supported(c, x, links[k]) {
      LinkExactly(c, x, links[k]);
    }
    if AllOk(c, x, links) {
      var claims := Claims(c, x, links);
      forall k, l | 0 <= k < l < |links| ensures Compatible(claims[k], claims[l]) <==> Apart(c, x, links[k], links[l]) {
        assert Some(claims[k]) == ClaimOf(c, x, links[k]) && Some(claims[l]) == ClaimOf(c, x, links[l]);
        CompatibleIsApart(c, x, links[k], links[l]);
      }
    }
  }

  // ------------------------------------------------------------------------ refusals

  /** Some earlier link has the same usage row, provider row or receipt. */
  ghost predicate Reuses(links: seq<Item>, i: nat)
    requires i < |links| && links[i].Item?
  {
    exists k :: 0 <= k < i && links[k].Item? &&
                (links[k].usage == links[i].usage || links[k].provider == links[i].provider ||
                 links[k].receipt == links[i].receipt)
  }

  /** Some earlier link is of the same provider account but another namespace. */
  ghost predicate Mixes(x: Inputs, links: seq<Item>, i: nat, id: Identity)
    requires i <= |links|
  {
    exists k :: 0 <= k < i && IdentityOf(x, links[k]).Some? && (
                  var other := IdentityOf(x, links[k]).value;
                  other.provider == id.provider && other.scope == id.scope && other.namespace != id.namespace)
  }

  ghost predicate SameHash(c: Profile, x: Inputs, links: seq<Item>, i: nat, id: Identity)
    requires i <= |links|
  {
    exists k :: 0 <= k < i && IdentityOf(x, links[k]).Some? &&
                c.identityHash(IdentityOf(x, links[k]).value) == c.identityHash(id)
  }

  lemma {:induction false} LedgerMeans(done: seq<Claim>, b: Claim)
    ensures var l := LedgerOf(done);
            && (b.usage in l.usage <==> exists k :: 0 <= k < |done| && done[k].usage == b.usage)
            && (b.provider in l.provider <==> exists k :: 0 <= k < |done| && done[k].provider == b.provider)
            && (b.row.receiptId in l.receipts <==>
                exists k :: 0 <= k < |done| && done[k].row.receiptId == b.row.receiptId)
            && (b.hash in l.identities <==> exists k :: 0 <= k < |done| && done[k].hash == b.hash)
  {
    if done != [] {
      LedgerMeans(done[..|done| - 1], b);
      assert forall k :: 0 <= k < |done| - 1 ==> done[..|done| - 1][k] == done[k];
    }
  }

  /** An account's namespace in the ledger is that of all of its links. */
  lemma {:induction false} NamespaceMeans(done: seq<Claim>, id: Identity)
    requires PairwiseCompatible(done)
    ensures var l := LedgerOf(done);
            (Scope(id) in l.namespaces && l.namespaces[Scope(id)] != id.namespace) <==>
            exists k :: 0 <= k < |done| && Scope(done[k].identity) == Scope(id) &&
                        done[k].identity.namespace != id.namespace
  {
    if done != [] {
      var n := |done| - 1;
      NamespaceMeans(done[..n], id);
      FreshIsCompatible(done[..n], done[n]);
      assert forall k :: 0 <= k < n ==> done[..n][k] == done[k];
    }
  }

  /** What the ledger has of the links before `i` is what these links name. */
  lemma EarlierClaims(c: Profile, x: Inputs, links: seq<Item>, i: nat)
    requires i < |links| && AllOk(c, x, links[..i])
    ensures var done := Claims(c, x, links[..i]);
            forall k :: 0 <= k < i ==>
              && links[k].Item? && links[k].usage == Some(done[k].usage) && links[k].provider == Some(done[k].provider)
              && links[k].receipt == Some(done[k].row.receiptId) && IdentityOf(x, links[k]) == Some(done[k].identity)
              && done[k].hash == c.identityHash(done[k].identity)
  {
    var done := Claims(c, x, links[..i]);
    forall k | 0 <= k < i ensures links[..i][k] == links[k] && Some(done[k]) == ClaimOf(c, x, links[k]) {
    }
  }

  /** A claim with these references, whatever else it says. */
  function Naming(u: int, p: int, rid: string, id: Identity, hash: string): Claim {
    Claim(u, p, id, hash, ReportRow(Prepared("", 0.0), rid, Receipt(None, "")))
  }

  lemma ReusesExactly(c: Profile, x: Inputs, links: seq<Item>, i: nat)
    requires i < |links| && AllOk(c, x, links[..i]) && Resolves(x, links[i])
    ensures var l, a := LedgerOf(Claims(c, x, links[..i])), links[i];
            Reuses(links, i) <==>
            a.usage.value in l.usage || a.provider.value in l.provider || a.receipt.value in l.receipts
  {
    var a := links[i];
    EarlierClaims(c, x, links, i);
    LedgerMeans(Claims(c, x, links[..i]), Naming(a.usage.value, a.provider.value, a.receipt.value,
                                                 Identity("", "", "", ""), ""));
  }

  lemma MixesExactly(c: Profile, x: Inputs, links: seq<Item>, i: nat, id: Identity)
    requires i < |links| && AllOk(c, x, links[..i]) && PairwiseCompatible(Claims(c, x, links[..i]))
    ensures var l := LedgerOf(Claims(c, x, links[..i]));
            Mixes(x, links, i, id) <==> Scope(id) in l.namespaces && l.namespaces[Scope(id)] != id.namespace
  {
    EarlierClaims(c, x, links, i);
    NamespaceMeans(Claims(c, x, links[..i]), id);
  }

  lemma SameHashExactly(c: Profile, x: Inputs, links: seq<Item>, i: nat, id: Identity)
    requires i < |links| && AllOk(c, x, links[..i])
    ensures SameHash(c, x, links, i, id) <==> c.identityHash(id) in LedgerOf(Claims(c, x, links[..i])).identities
  {
    EarlierClaims(c, x, links, i);
    LedgerMeans(Claims(c, x, links[..i]), Naming(0, 0, "", id, c.identityHash(id)));
  }

  /** The references of a link name a usage row, a provider row and some receipt. */
  ghost predicate Names(x: Inputs, a: Item) {
    && a.Item? && a.usage.Some? && a.provider.Some? && a.receipt.Some?
    && 0 <= a.usage.value < |x.usage| && 0 <= a.provider.value < |x.provider|
    && exists k :: 0 <= k < |x.receipts| && x.receipts[k].id == a.receipt
  }

  /** The rows have one explicit identity, and a report row can be prepared from them. */
  function RowFor(c: Profile, x: Inputs, a: Item): Option<Prepared>
    requires Names(x, a)
  {
    var u, v := x.usage[a.usage.value], x.provider[a.provider.value];
    if u.identity.Some? && v.identity == u.identity then c.prepare(u, v) else None
  }

  lemma NamesExactly(c: Profile, x: Inputs, a: Item)
    ensures Names(x, a) <==> Resolves(x, a)
    ensures Names(x, a) ==> RowFor(c, x, a) == PreparedFor(c, x, a)
  {
    if a.Item? && a.receipt.Some? {
      ByIdFinds(x.receipts, a.receipt.value);
      NoneWith(x.receipts, a.receipt.value);
    }
  }

  /** Why link `i` is refused on top of the links before it, in the source's order; none if it is not. */
  ghost function Refusal(c: Profile, x: Inputs, links: seq<Item>, i: nat): Option<Error>
    requires i < |links|
  {
    var a := links[i];
    if !a.Item? then Some(InvalidShape)
    else if !Names(x, a) then Some(InvalidReference)
    else if Reuses(links, i) then Some(DuplicateReference)
    else if !(exists k :: OnlyOne(x.receipts, a.receipt.value, k)) then Some(AmbiguousReceipt)
    else if RowFor(c, x, a).None? then Some(UnsupportedPair)
    else
      var id, row := IdentityOf(x, a).value, RowFor(c, x, a).value;
      if Mixes(x, links, i, id) then Some(MixedNamespaces)
      else if SameHash(c, x, links, i, id) then Some(DuplicateIdentity)
      else if a.report != row.report then Some(ReportRowMismatch)
      else if exists k :: OnlyOne(x.receipts, a.receipt.value, k) && !c.opens(x.receipts[k], row) then
        Some(ReceiptMismatch)
      else None
  }

  /** The loop refuses a link exactly for the reason that the links and rows themselves give. */
  lemma RefusalExactly(c: Profile, x: Inputs, links: seq<Item>, i: nat)
    requires i < |links| && AllOk(c, x, links[..i]) && PairwiseCompatible(Claims(c, x, links[..i]))
    ensures LinkError(c, x, links[i], LedgerOf(Claims(c, x, links[..i]))) == Refusal(c, x, links, i)
  {
    var a := links[i];
    NamesExactly(c, x, a);
    if Resolves(x, a) {
      ByIdFinds(x.receipts, a.receipt.value);
      ReusesExactly(c, x, links, i);
      if IdentityOf(x, a).Some? {
        MixesExactly(c, x, links, i, IdentityOf(x, a).value);
        SameHashExactly(c, x, links, i, IdentityOf(x, a).value);
      }
    }
  }

  // ---------------------------------------------------------------------- the report

  /** Text order: a proper prefix comes first, otherwise the first difference decides. */
  ghost predicate Before(a: string, b: string) {
    exists k :: 0 <= k <= |a| && k < |b| && a[..k] == b[..k] && (k == |a| || a[k] < b[k])
  }

  lemma {:induction false} LessExactly(a: string, b: string)
    ensures Less(a, b) <==> Before(a, b)
    decreases a
  {
    if a != "" && b != "" && a[0] == b[0] {
      LessExactly(a[1..], b[1..]);
      var p, q := a[1..], b[1..];
      if k :| 0 <= k <= |p| && k < |q| && p[..k] == q[..k] && (k == |p| || p[k] < q[k]) {
        assert a[..k + 1] == [a[0]] + p[..k] && b[..k + 1] == [b[0]] + q[..k];
      }
      if k :| 0 <= k <= |a| && k < |b| && a[..k] == b[..k] && (k == |a| || a[k] < b[k]) {
        assert p[..k - 1] == a[..k][1..] && q[..k - 1] == b[..k][1..];
      }
    } else if b != "" && (a == "" || a[0] < b[0]) {
      assert a[..0] == b[..0];
    }
  }

  /** The report lists exactly the claimed rows, by receipt id in text order. */
  lemma ReportIsSorted(c: Profile, x: Inputs, links: seq<Item>)
    requires Accepts(c, x, links)
    ensures var rows := ReportFor(c, x, links).rows;
            && (forall r :: r in rows <==> r in ReportRows(Claims(c, x, links)))
            && forall k, l :: 0 <= k < l < |rows| ==> Before(rows[k].receiptId, rows[l].receiptId)
  {
    var rows, claims := ReportRows(Claims(c, x, links)), Claims(c, x, links);
    assert forall k, l :: 0 <= k < l < |rows| ==> Compatible(claims[k], claims[l]);
    SortFacts(rows);
    var sorted := SortById(rows);
    forall k, l | 0 <= k < l < |sorted| ensures Before(sorted[k].receiptId, sorted[l].receiptId) {
      LessExactly(sorted[k].receiptId, sorted[l].receiptId);
    }
  }
}
