/** What the savings report promises: it ignores the order of the log, its classes and tiers add up, strict mode is
    never above normal mode. */
module SavingsProof {
  import opened Options
  import opened Totals
  import opened Savings

  lemma {:induction false} SumMonotone(rs: seq<Rec>, f: Rec -> real, g: Rec -> real)
    requires forall x <- rs :: f(x) <= g(x)
    ensures SumOf(rs, f) <= SumOf(rs, g)
  {
    if rs != [] {
      assert rs[|rs| - 1] in rs;
      SumMonotone(rs[..|rs| - 1], f, g);
    }
  }

  // ------------------------------------------------------------------------ order

  lemma FactorIgnoresOrder(p: Prices, rs: seq<Rec>, ss: seq<Rec>, strict: bool, c: string)
    requires multiset(rs) == multiset(ss)
    ensures Factor(p, rs, strict, c) == Factor(p, ss, strict, c)
  {
    CountPermuted(rs, ss, InClass(HeldOut(), c));
    CountPermuted(rs, ss, InClass(PaidHoldout(p), c));
  }

  lemma SumsIgnoreOrder(rs: seq<Rec>, ss: seq<Rec>, f: Rec -> real, g: Rec -> real)
    requires multiset(rs) == multiset(ss) && forall x :: f(x) == g(x)
    ensures SumOf(rs, f) == SumOf(ss, g)
  {
    SumPermuted(rs, ss, f);
    SumAgrees(ss, f, g);
  }

  lemma BucketsIgnoreOrder(p: Prices, rs: seq<Rec>, ss: seq<Rec>, f: Rec -> real, g: Rec -> real)
    requires multiset(rs) == multiset(ss) && forall x :: f(x) == g(x)
    ensures Buckets(p, rs, f, rs) == Buckets(p, ss, g, ss)
  {
    forall c ensures BucketOf(p, rs, f, rs, c) == BucketOf(p, ss, g, ss, c) {
      CountPermuted(rs, ss, InClass(OfKind(p, CacheHit), c));
      CountPermuted(rs, ss, InClass(HeldOut(), c));
      CountPermuted(rs, ss, InClass(PaidHoldout(p), c));
      SumsIgnoreOrder(rs, ss, Within(f, c), Within(g, c));
    }
    assert Classes(rs) == Classes(ss) by {
      forall x ensures x in rs <==> x in ss {
        assert x in rs <==> x in multiset(rs);
        assert x in ss <==> x in multiset(ss);
      }
    }
  }

  /** Two logs with the same records, in any order, give the same report. */
  lemma ReportIgnoresOrder(p: Prices, rs: seq<Rec>, ss: seq<Rec>, strict: bool)
    requires multiset(rs) == multiset(ss)
    ensures ReportOf(p, rs, strict) == ReportOf(p, ss, strict)
  {
    var f, g := Value(p, rs, strict), Value(p, ss, strict);
    forall x ensures f(x) == g(x) {
      FactorIgnoresOrder(p, rs, ss, strict, x.cls);
    }
    SumsIgnoreOrder(rs, ss, f, g);
    BucketsIgnoreOrder(p, rs, ss, f, g);
    SumPermuted(rs, ss, Spend(p));
    SumPermuted(rs, ss, HoldoutSpend(p));
    CountPermuted(rs, ss, Unpriced(p));
    assert Kinds(p, rs) == Kinds(p, ss) by {
      forall k ensures CountIf(rs, OfKind(p, k)) == CountIf(ss, OfKind(p, k)) {
        CountPermuted(rs, ss, OfKind(p, k));
      }
    }
  }

  // ----------------------------------------------------------------- conservation

  function In(f: Rec -> real, classes: set<string>): Rec -> real {
    (x: Rec) => if x.cls in classes then f(x) else 0.0
  }

  lemma {:induction false} SumSplits(rs: seq<Rec>, f: Rec -> real, classes: set<string>, c: string)
    requires c in classes
    ensures SumOf(rs, In(f, classes)) == SumOf(rs, In(f, classes - {c})) + SumOf(rs, Within(f, c))
  {
    if rs != [] {
      SumSplits(rs[..|rs| - 1], f, classes, c);
    }
  }

  lemma {:induction false} SumOfNothing(rs: seq<Rec>, f: Rec -> real)
    ensures SumOf(rs, In(f, {})) == 0.0
  {
    if rs != [] {
      SumOfNothing(rs[..|rs| - 1], f);
    }
  }

  /** The savings of all buckets. */
  ghost function SavedByClass(byClass: map<string, Bucket>): real
    decreases |byClass|
  {
    if byClass == map[] then 0.0
    else
      var c :| c in byClass;
      byClass[c].saved + SavedByClass(byClass - {c})
  }

  lemma {:induction false} BucketsAddUp(rs: seq<Rec>, f: Rec -> real, byClass: map<string, Bucket>)
    requires forall c <- byClass :: byClass[c].saved == SumOf(rs, Within(f, c))
    ensures SavedByClass(byClass) == SumOf(rs, In(f, byClass.Keys))
    decreases |byClass|
  {
    if byClass == map[] {
      SumOfNothing(rs, f);
    } else {
      var c :| c in byClass && SavedByClass(byClass) == byClass[c].saved + SavedByClass(byClass - {c});
      BucketsAddUp(rs, f, byClass - {c});
      assert (byClass - {c}).Keys == byClass.Keys - {c};
      SumSplits(rs, f, byClass.Keys, c);
    }
  }

  /** The classes' savings sum to the total, and so do the tiers', of which the anchored ones are nothing. */
  lemma SavingsAddUp(p: Prices, rs: seq<Rec>, strict: bool)
    ensures var r := ReportOf(p, rs, strict);
            && r.byClass.Keys == Classes(rs) && SavedByClass(r.byClass) == r.saved
            && r.tiers[SelfReported] + r.tiers[HoldoutValidated] + r.tiers[ProviderMetered] == r.saved
            && r.tiers[HoldoutValidated] + r.tiers[ProviderMetered] == 0.0
  {
    var r, f := ReportOf(p, rs, strict), Value(p, rs, strict);
    BucketsAddUp(rs, f, r.byClass);
    assert r.byClass.Keys == Classes(rs);
    SumAgrees(rs, In(f, Classes(rs)), f);
  }

  /** Every record is of exactly one kind. */
  lemma {:induction false} KindsPartition(p: Prices, rs: seq<Rec>)
    ensures var k := Kinds(p, rs);
            k[CacheHit] + k[Holdout] + k[Displacement] + k[PaidCall] + k[FreeCall] == |rs|
  {
    if rs != [] {
      KindsPartition(p, rs[..|rs| - 1]);
    }
  }

  // ------------------------------------------------------------------------ strict

  /** Rates and multipliers are not negative. */
  ghost predicate NonNegative(p: Prices) {
    p.cacheRate >= 0.0 && p.shortRate >= 0.0 && (forall m :: p.multiplier(m) >= 0.0) &&
    forall a, s :: p.net(a, s) >= 0.0
  }

  lemma TimesMonotone(a: real, b: real, c: real)
    requires a >= 0.0 && b <= c
    ensures a * b <= a * c
  {
  }

  lemma FullValueNonNegative(p: Prices, x: Rec)
    requires NonNegative(p)
    ensures x.completion as real * p.cacheRate * p.multiplier(x.avoided) >= 0.0
  {
  }

  lemma StrictValue(p: Prices, rs: seq<Rec>, x: Rec)
    requires NonNegative(p)
    ensures Value(p, rs, true)(x) <= Value(p, rs, false)(x)
  {
    FullValueNonNegative(p, x);
    TimesMonotone(x.completion as real * p.cacheRate * p.multiplier(x.avoided),
                  Factor(p, rs, true, x.cls), Factor(p, rs, false, x.cls));
  }

  /** Strict mode never reports more than normal mode, in total and class by class. */
  lemma StrictIsConservative(p: Prices, rs: seq<Rec>)
    requires NonNegative(p)
    ensures var strict, normal := ReportOf(p, rs, true), ReportOf(p, rs, false);
            && strict.saved <= normal.saved
            && strict.byClass.Keys == normal.byClass.Keys
            && forall c <- strict.byClass :: strict.byClass[c].saved <= normal.byClass[c].saved
  {
    var f, g := Value(p, rs, true), Value(p, rs, false);
    forall x ensures f(x) <= g(x) {
      StrictValue(p, rs, x);
    }
    SumMonotone(rs, f, g);
    forall c ensures SumOf(rs, Within(f, c)) <= SumOf(rs, Within(g, c)) {
      SumMonotone(rs, Within(f, c), Within(g, c));
    }
  }

  // --------------------------------------------------------------- as published

  /** The published floor is always 0 and, with non-negative prices, the efficiency lies between 0 and 1. */
  lemma PublishedRatios(p: Prices, rs: seq<Rec>, strict: bool)
    requires NonNegative(p) && forall k, n :: 0.0 <= p.wilson(k, n)
    requires forall m, n :: p.report(m, n).0 >= 0.0
    ensures var r := ReportOf(p, rs, strict);
            Floor(r) == 0.0 && 0.0 <= Efficiency(r) <= 1.0
  {
    var f, zero := Value(p, rs, strict), Nothing();
    forall x ensures zero(x) <= f(x) && zero(x) <= Spend(p)(x) {
      FullValueNonNegative(p, x);
    }
    SumMonotone(rs, zero, f);
    SumMonotone(rs, zero, Spend(p));
    ZeroIsZero(rs);
    if SumOf(rs, f) + SumOf(rs, Spend(p)) != 0.0 {
      Share(SumOf(rs, f), SumOf(rs, Spend(p)));
    }
  }

  function Nothing(): Rec -> real {
    (x: Rec) => 0.0
  }

  lemma {:induction false} ZeroIsZero(rs: seq<Rec>)
    ensures SumOf(rs, Nothing()) == 0.0
  {
    if rs != [] {
      ZeroIsZero(rs[..|rs| - 1]);
    }
  }

  lemma Share(a: real, b: real)
    requires a >= 0.0 && b >= 0.0 && a + b != 0.0
    ensures 0.0 <= a / (a + b) <= 1.0
  {
  }

  /** Two logs with the same records in any order publish the same figures, if the prompt cache summary does not depend
      on the order of the calls either. */
  lemma PublishedIgnoresOrder(p: Prices, rs: seq<Rec>, ss: seq<Rec>, strict: bool, batch: bool)
    requires multiset(rs) == multiset(ss)
    requires forall a: seq<Call>, b: seq<Call> :: multiset(a) == multiset(b) ==> p.promptCache(a) == p.promptCache(b)
    ensures Publish(p, rs, strict, batch, ReportOf(p, rs, strict)) ==
            Publish(p, ss, strict, batch, ReportOf(p, ss, strict))
  {
    ReportIgnoresOrder(p, rs, ss, strict);
    CallsPermuted(rs, ss, batch);
    assert |rs| == |multiset(rs)| == |multiset(ss)| == |ss|;
  }

  lemma {:induction false} CallsPermuted(rs: seq<Rec>, ss: seq<Rec>, batch: bool)
    requires multiset(rs) == multiset(ss)
    ensures multiset(Calls(rs, batch)) == multiset(Calls(ss, batch))
  {
    if rs == [] {
      assert |ss| == |multiset(ss)| == 0;
    } else {
      var k := FindLast(rs, ss);
      CallsPermuted(rs[..|rs| - 1], Remove(ss, k), batch);
      CallsRemoved(ss, batch, k);
    }
  }

  function CallsOf(x: Rec, batch: bool): multiset<Call> {
    if x.cacheHit then multiset{} else multiset{Call(ServedBy(x), x.bill.usage, TierOf(x.bill, batch))}
  }

  lemma {:induction false} CallsRemoved(ss: seq<Rec>, batch: bool, k: nat)
    requires k < |ss|
    ensures multiset(Calls(ss, batch)) == multiset(Calls(Remove(ss, k), batch)) + CallsOf(ss[k], batch)
  {
    if k == |ss| - 1 {
      RemoveLast(ss);
    } else {
      CallsRemoved(ss[..|ss| - 1], batch, k);
      RemoveEarlier(ss, k);
    }
  }

  // ------------------------------------------------------------------ prompt cache

  function Cached(): Rec -> bool {
    (x: Rec) => x.cacheHit
  }

  /** There is one call for each record that was not served from the cache. */
  lemma {:induction false} OneCallEach(rs: seq<Rec>, batch: bool)
    ensures |Calls(rs, batch)| + CountIf(rs, Cached()) == |rs|
  {
    if rs != [] {
      OneCallEach(rs[..|rs| - 1], batch);
    }
  }

  /** All that the record says about its tier is `t`. */
  predicate BilledAt(b: Bill, t: string) {
    && !b.batch && (b.recordTier.Some? || b.usageTier.Some?)
    && (b.recordTier.Some? ==> b.recordTier.value == t) && (b.usageTier.Some? ==> b.usageTier.value == t)
  }

  const SPECIAL := {"batch", "conflicting_service_tiers"}

  /** A call is handed on at an ordinary tier only if nothing in its record contradicts that: contradictory and batch
      billing never passes for standard. */
  lemma {:induction false} TiersAreHonest(rs: seq<Rec>, batch: bool, c: Call, t: string)
    requires c in Calls(rs, batch) && c.tier == Some(t) && t !in SPECIAL
    ensures !batch && exists x <- rs ::
              !x.cacheHit && c.model == ServedBy(x) && c.usage == x.bill.usage && BilledAt(x.bill, t)
  {
    var x := rs[|rs| - 1];
    if c in Calls(rs[..|rs| - 1], batch) {
      TiersAreHonest(rs[..|rs| - 1], batch, c, t);
    } else {
      assert x in rs && c == Call(ServedBy(x), x.bill.usage, TierOf(x.bill, batch));
    }
  }
}
