/** The figures of the savings report in terms of the records' flags alone. */
module SavingsFigures {
  import opened Options
  import opened Totals
  import opened Savings

  // ------------------------------------------------------------------------ the flags

  /** Another model than the one to be avoided has served the call. */
  predicate Rerouted(x: Rec) {
    match (x.served, x.avoided)
    case (Some(s), Some(a)) => s != "" && a != "" && s != a
    case _ => false
  }

  /** A call that was made at the record's own model: held out, or neither from the cache nor rerouted. */
  predicate OwnCall(x: Rec) {
    x.holdout || (!x.cacheHit && !Rerouted(x))
  }

  predicate ReroutedCall(x: Rec) {
    !x.holdout && !x.cacheHit && Rerouted(x)
  }

  predicate PlainHit(x: Rec) {
    !x.holdout && x.cacheHit
  }

  lemma KindByFlags(p: Prices, x: Rec)
    ensures KindOf(p, x) ==
            if x.holdout then Holdout else if x.cacheHit then CacheHit else if Rerouted(x) then Displacement
            else if p.paid(x.model, x.completion) then PaidCall else FreeCall
  {
  }

  // ---------------------------------------------------------------------------- spend

  function OwnCost(p: Prices): Rec -> real {
    (x: Rec) => if OwnCall(x) then p.report(x.model, x.completion).0 else 0.0
  }

  function ServedCost(p: Prices): Rec -> real {
    (x: Rec) => if ReroutedCall(x) then p.report(x.served.value, x.completion).0 else 0.0
  }

  function HeldOutCost(p: Prices): Rec -> real {
    (x: Rec) => if x.holdout then p.report(x.model, x.completion).0 else 0.0
  }

  function OwnUnpriced(p: Prices): Rec -> bool {
    (x: Rec) => OwnCall(x) && !p.report(x.model, x.completion).1
  }

  function ServedUnpriced(p: Prices): Rec -> bool {
    (x: Rec) => ReroutedCall(x) && !p.report(x.served.value, x.completion).1
  }

  lemma ChargeByFlags(p: Prices, x: Rec)
    ensures Charge(p, x) == if OwnCall(x) then p.report(x.model, x.completion)
                            else if ReroutedCall(x) then p.report(x.served.value, x.completion)
                            else (0.0, true)
  {
    KindByFlags(p, x);
  }

  lemma SharesByFlags(p: Prices, x: Rec)
    ensures Spend(p)(x) == OwnCost(p)(x) + ServedCost(p)(x)
    ensures (Unpriced(p)(x) <==> OwnUnpriced(p)(x) || ServedUnpriced(p)(x)) &&
            !(OwnUnpriced(p)(x) && ServedUnpriced(p)(x))
  {
    ChargeByFlags(p, x);
    assert !(OwnCall(x) && ReroutedCall(x));
  }

  lemma {:induction false} SumSplit(rs: seq<Rec>, f: Rec -> real, g: Rec -> real, h: Rec -> real)
    requires forall x :: f(x) == g(x) + h(x)
    ensures SumOf(rs, f) == SumOf(rs, g) + SumOf(rs, h)
  {
    if rs != [] {
      SumSplit(rs[..|rs| - 1], f, g, h);
    }
  }

  lemma {:induction false} CountSplit(rs: seq<Rec>, q: Rec -> bool, r: Rec -> bool, s: Rec -> bool)
    requires forall x :: (q(x) <==> r(x) || s(x)) && !(r(x) && s(x))
    ensures CountIf(rs, q) == CountIf(rs, r) + CountIf(rs, s)
  {
    if rs != [] {
      CountSplit(rs[..|rs| - 1], q, r, s);
    }
  }

  /** The spend is the price of the record's own model over held-out and ordinary calls, plus that of the model that
      served over rerouted ones; hits from the cache add nothing. So with the calls that have no price. */
  lemma SpendByFlags(p: Prices, rs: seq<Rec>, strict: bool)
    ensures var r := ReportOf(p, rs, strict);
            && r.spend == SumOf(rs, OwnCost(p)) + SumOf(rs, ServedCost(p))
            && r.holdoutCost == SumOf(rs, HeldOutCost(p))
            && r.unpriced == CountIf(rs, OwnUnpriced(p)) + CountIf(rs, ServedUnpriced(p))
  {
    forall x
      ensures Spend(p)(x) == OwnCost(p)(x) + ServedCost(p)(x)
      ensures (Unpriced(p)(x) <==> OwnUnpriced(p)(x) || ServedUnpriced(p)(x)) &&
              !(OwnUnpriced(p)(x) && ServedUnpriced(p)(x))
    {
      SharesByFlags(p, x);
    }
    SumSplit(rs, Spend(p), OwnCost(p), ServedCost(p));
    SumAgrees(rs, HoldoutSpend(p), HeldOutCost(p));
    CountSplit(rs, Unpriced(p), OwnUnpriced(p), ServedUnpriced(p));
  }

  lemma {:induction false} SumReplaced(rs: seq<Rec>, k: nat, y: Rec, f: Rec -> real)
    requires k < |rs| && f(y) == f(rs[k])
    ensures SumOf(rs[k := y], f) == SumOf(rs, f)
  {
    var n := |rs| - 1;
    if k < n {
      SumReplaced(rs[..n], k, y, f);
      assert rs[k := y][..n] == rs[..n][k := y];
    } else {
      assert rs[k := y][..n] == rs[..n];
    }
  }

  lemma {:induction false} CountReplaced(rs: seq<Rec>, k: nat, y: Rec, q: Rec -> bool)
    requires k < |rs| && (q(y) <==> q(rs[k]))
    ensures CountIf(rs[k := y], q) == CountIf(rs, q)
  {
    var n := |rs| - 1;
    if k < n {
      CountReplaced(rs[..n], k, y, q);
      assert rs[k := y][..n] == rs[..n][k := y];
    } else {
      assert rs[k := y][..n] == rs[..n];
    }
  }

  /** Which model a rerouted call avoided changes nothing in the spend: only the model that served is charged. */
  lemma AvoidedIsNotCharged(p: Prices, rs: seq<Rec>, k: nat, other: string, strict: bool)
    requires k < |rs| && ReroutedCall(rs[k]) && other != "" && Some(other) != rs[k].served
    ensures var r, r' := ReportOf(p, rs, strict), ReportOf(p, rs[k := rs[k].(avoided := Some(other))], strict);
            r'.spend == r.spend && r'.holdoutCost == r.holdoutCost && r'.unpriced == r.unpriced
  {
    var y := rs[k].(avoided := Some(other));
    SumReplaced(rs, k, y, Spend(p));
    SumReplaced(rs, k, y, HoldoutSpend(p));
    CountReplaced(rs, k, y, Unpriced(p));
  }

  // --------------------------------------------------------------------------- saving

  function HeldOutIn(c: string): Rec -> bool {
    (x: Rec) => x.cls == c && x.holdout
  }

  function PaidIn(p: Prices, c: string): Rec -> bool {
    (x: Rec) => x.cls == c && x.holdout && p.paid(x.model, x.completion)
  }

  function HitsIn(c: string): Rec -> bool {
    (x: Rec) => x.cls == c && PlainHit(x)
  }

  /** The discount of a class: with enough held-out calls the lower bound for the share of them that was paid. */
  function Discount(p: Prices, rs: seq<Rec>, strict: bool, c: string): real {
    var n := CountIf(rs, HeldOutIn(c));
    if n < p.minHoldout then (if strict then 0.0 else 1.0) else p.wilson(CountIf(rs, PaidIn(p, c)), n)
  }

  function HitSaving(p: Prices, rs: seq<Rec>, strict: bool): Rec -> real {
    (x: Rec) => if PlainHit(x) then
                  x.completion as real * p.cacheRate * p.multiplier(x.avoided) * Discount(p, rs, strict, x.cls)
                else 0.0
  }

  function RerouteSaving(p: Prices): Rec -> real {
    (x: Rec) => if ReroutedCall(x) then x.completion as real * p.shortRate * p.net(x.avoided.value, x.served.value)
                else 0.0
  }

  lemma {:induction false} CountAgrees(rs: seq<Rec>, q: Rec -> bool, r: Rec -> bool)
    requires forall x :: q(x) <==> r(x)
    ensures CountIf(rs, q) == CountIf(rs, r)
  {
    if rs != [] {
      CountAgrees(rs[..|rs| - 1], q, r);
    }
  }

  lemma DiscountIsFactor(p: Prices, rs: seq<Rec>, strict: bool, c: string)
    ensures Factor(p, rs, strict, c) == Discount(p, rs, strict, c)
  {
    CountAgrees(rs, InClass(HeldOut(), c), HeldOutIn(c));
    CountAgrees(rs, InClass(PaidHoldout(p), c), PaidIn(p, c));
  }

  lemma ValueByFlags(p: Prices, rs: seq<Rec>, strict: bool, x: Rec)
    ensures Value(p, rs, strict)(x) == HitSaving(p, rs, strict)(x) + RerouteSaving(p)(x)
  {
    DiscountIsFactor(p, rs, strict, x.cls);
    KindByFlags(p, x);
    assert PlainHit(x) <==> KindOf(p, x).CacheHit?;
    assert ReroutedCall(x) <==> KindOf(p, x).Displacement?;
  }

  /** The saving is that of the plain hits, each discounted by its class, plus that of the rerouted calls; and so
      within every class, whose counts are those of its held-out calls, of the paid ones among them, and of its plain
      hits. */
  lemma SavedByFlags(p: Prices, rs: seq<Rec>, strict: bool, c: string)
    ensures var r, hit, reroute := ReportOf(p, rs, strict), HitSaving(p, rs, strict), RerouteSaving(p);
            && r.saved == SumOf(rs, hit) + SumOf(rs, reroute)
            && (c in r.byClass <==> exists x <- rs :: x.cls == c)
            && (c in r.byClass ==>
                  r.byClass[c] ==
                  Bucket(CountIf(rs, HitsIn(c)), CountIf(rs, HeldOutIn(c)), CountIf(rs, PaidIn(p, c)),
                         SumOf(rs, Within(hit, c)) + SumOf(rs, Within(reroute, c)), SelfReported))
  {
    var f, hit, reroute := Value(p, rs, strict), HitSaving(p, rs, strict), RerouteSaving(p);
    forall x ensures f(x) == hit(x) + reroute(x) {
      ValueByFlags(p, rs, strict, x);
    }
    SumSplit(rs, f, hit, reroute);
    SumSplit(rs, Within(f, c), Within(hit, c), Within(reroute, c));
    CountAgrees(rs, InClass(OfKind(p, CacheHit), c), HitsIn(c));
    CountAgrees(rs, InClass(HeldOut(), c), HeldOutIn(c));
    CountAgrees(rs, InClass(PaidHoldout(p), c), PaidIn(p, c));
  }

  // ------------------------------------------------------------------------ published

  /** `q` is the quotient of the two, or 0 when the divisor is 0. */
  predicate IsShare(q: real, part: real, whole: real) {
    if whole == 0.0 then q == 0.0 else q * whole == part
  }

  lemma ShareExists(part: real, whole: real)
    requires whole != 0.0
    ensures IsShare(part / whole, part, whole)
  {
  }

  /** The published amounts, in KRY and in dollars, and the share of the saving in all that flowed. */
  lemma PublishedAmounts(p: Prices, rs: seq<Rec>, strict: bool, batch: bool, r: Report)
    requires r == ReportOf(p, rs, strict)
    ensures var q := Publish(p, rs, strict, batch, r);
            && (forall kry :: Dollars(p, kry) == kry * p.usdPerKry)
            && q.kinds == r.kinds && q.promptCache == p.promptCache(Calls(rs, batch))
            && q.records == |rs| && q.strict == strict && q.unpriced == r.unpriced
            && q.saved == p.round(r.saved, 2) && q.savedUsd == p.round(Dollars(p, r.saved), 4)
            && q.spend == p.round(r.spend, 2) && q.spendUsd == p.round(Dollars(p, r.spend), 4)
            && q.holdoutCost == p.round(r.holdoutCost, 2) && q.holdoutUsd == p.round(Dollars(p, r.holdoutCost), 4)
            && exists e :: IsShare(e, r.saved, r.saved + r.spend) && q.efficiency == p.round(e, 4)
  {
    if r.saved + r.spend != 0.0 {
      ShareExists(r.saved, r.saved + r.spend);
    }
    assert IsShare(Efficiency(r), r.saved, r.saved + r.spend);
  }

  /** All of the saving is published as self-reported and none of it as anchored. */
  lemma PublishedTiers(p: Prices, rs: seq<Rec>, strict: bool, batch: bool, r: Report)
    requires r == ReportOf(p, rs, strict)
    ensures var q := Publish(p, rs, strict, batch, r);
            && q.floor == p.round(0.0, 4) && q.tiers.Keys == {SelfReported, HoldoutValidated, ProviderMetered}
            && q.tiers[SelfReported] == p.round(r.saved, 2)
            && q.tiers[HoldoutValidated] == q.tiers[ProviderMetered] == p.round(0.0, 2)
  {
    assert Floor(r) == 0.0;
    assert Publish(p, rs, strict, batch, r).tiers == map t | t in r.tiers :: p.round(r.tiers[t], 2);
  }

  /** The published line of a class: the share of its held-out calls that was paid, and the lower bound for it, if
      there are any. */
  lemma PublishedLine(p: Prices, rs: seq<Rec>, strict: bool, batch: bool, c: string)
    requires exists x <- rs :: x.cls == c
    ensures var r, q := ReportOf(p, rs, strict), Publish(p, rs, strict, batch, ReportOf(p, rs, strict));
            var n, k := CountIf(rs, HeldOutIn(c)), CountIf(rs, PaidIn(p, c));
            && q.byClass.Keys == r.byClass.Keys && c in q.byClass
            && q.byClass[c].treatedN == CountIf(rs, HitsIn(c)) && q.byClass[c].holdoutN == n && q.byClass[c].paidN == k
            && q.byClass[c].saved == p.round(r.byClass[c].saved, 2) && q.byClass[c].tier == SelfReported
            && (n == 0 ==> q.byClass[c].pHat.None? && q.byClass[c].ciLo.None?)
            && (n > 0 ==> q.byClass[c].ciLo == Some(p.round(p.wilson(k, n), 4)) &&
                          exists e :: IsShare(e, k as real, n as real) && q.byClass[c].pHat == Some(p.round(e, 4)))
  {
    SavedByFlags(p, rs, strict, c);
    var b := ReportOf(p, rs, strict).byClass[c];
    if b.holdoutN > 0 {
      ShareExists(b.paidN as real, b.holdoutN as real);
    }
  }

  /** As many classes are published as measured as have a held-out call. */
  lemma MeasuredClasses(p: Prices, rs: seq<Rec>, strict: bool, batch: bool)
    ensures Publish(p, rs, strict, batch, ReportOf(p, rs, strict)).classesMeasured ==
            |set x | x in rs && x.holdout :: x.cls|
  {
    var r := ReportOf(p, rs, strict);
    var held := set x | x in rs && x.holdout :: x.cls;
    forall c ensures c in r.byClass && r.byClass[c].holdoutN > 0 <==> c in held {
      SavedByFlags(p, rs, strict, c);
      SomeCounted(rs, HeldOutIn(c));
    }
    assert (set c | c in r.byClass && r.byClass[c].holdoutN > 0) == held;
  }

  lemma {:induction false} SomeCounted(rs: seq<Rec>, q: Rec -> bool)
    ensures CountIf(rs, q) > 0 <==> exists x <- rs :: q(x)
  {
    if rs != [] {
      SomeCounted(rs[..|rs| - 1], q);
      assert forall x :: x in rs <==> x in rs[..|rs| - 1] || x == rs[|rs| - 1];
    }
  }

  // ------------------------------------------------------------------- provider calls

  /** The tier that a call is handed on with: batch billing first, then what the record and its usage object state,
      unless they contradict each other. */
  function HandedOn(b: Bill, batch: bool): Option<string> {
    if batch || b.batch then Some("batch")
    else match (b.recordTier, b.usageTier)
      case (Some(t), Some(u)) => Some(if t == u then t else "conflicting_service_tiers")
      case (Some(t), None) => Some(t)
      case (None, u) => u
  }

  function NotCached(): Rec -> bool {
    (x: Rec) => !x.cacheHit
  }

  /** The call of a record stands behind those of the records before it; it names the model that served, or the
      record's own when that is not known. */
  lemma {:induction false} CallOfRecord(rs: seq<Rec>, batch: bool, i: nat)
    requires i < |rs| && !rs[i].cacheHit
    ensures var k, x := CountIf(rs[..i], NotCached()), rs[i];
            && k < |Calls(rs, batch)|
            && Calls(rs, batch)[k] ==
               Call(if x.served.Some? && x.served.value != "" then x.served.value else x.model, x.bill.usage,
                    HandedOn(x.bill, batch))
  {
    var n := |rs| - 1;
    if i < n {
      CallOfRecord(rs[..n], batch, i);
      assert rs[..n][..i] == rs[..i];
    } else {
      CallsBefore(rs[..n], batch);
    }
  }

  lemma {:induction false} CallsBefore(rs: seq<Rec>, batch: bool)
    ensures |Calls(rs, batch)| == CountIf(rs, NotCached())
  {
    if rs != [] {
      CallsBefore(rs[..|rs| - 1], batch);
    }
  }
}
