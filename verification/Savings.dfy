/** `analyze` of the savings report: two passes over the normalised records, in exact arithmetic. */
module Savings {
  import opened Options
  import opened Totals

  /** A normalised record. An empty served model counts as none. */
  datatype Rec = Rec(model: string, completion: nat, cacheHit: bool, holdout: bool,
                     served: Option<string>, avoided: Option<string>, cls: string, bill: Bill)

  /** What the raw record says about its bill: its own service tier, that of its usage object, the rest of that object,
      and whether it comes from a Batch API export. */
  datatype Bill = Bill(recordTier: Option<string>, usageTier: Option<string>, usage: string, batch: bool)

  /** The package's price tables: what a call is charged and whether it has a price, whether it is paid at all,
      what an avoided token is worth, the Wilson lower bound of `paid` out of `n`; rounding to some decimals; and the
      summary of prompt caching over the provider calls. */
  datatype Prices = Prices(report: (string, nat) -> (real, bool), paid: (string, nat) -> bool,
                           multiplier: Option<string> -> real, net: (string, string) -> real,
                           wilson: (nat, nat) -> real, cacheRate: real, shortRate: real, minHoldout: int,
                           usdPerKry: real, round: (real, nat) -> real, promptCache: seq<Call> -> string)

  datatype Kind = CacheHit | Holdout | Displacement | PaidCall | FreeCall

  datatype Tier = SelfReported | HoldoutValidated | ProviderMetered

  datatype Bucket = Bucket(treatedN: nat, holdoutN: nat, paidN: nat, saved: real, tier: Tier)

  datatype Report = Report(kinds: map<Kind, nat>, saved: real, spend: real, holdoutCost: real, unpriced: nat,
                           tiers: map<Tier, real>, byClass: map<string, Bucket>)

  // ------------------------------------------------------------------ the records

  predicate Displaced(x: Rec) {
    x.served.Some? && x.served.value != "" && x.avoided.Some? && x.avoided.value != "" && x.served != x.avoided
  }

  function KindOf(p: Prices, x: Rec): Kind {
    if x.holdout then Holdout
    else if x.cacheHit then CacheHit
    else if Displaced(x) then Displacement
    else if p.paid(x.model, x.completion) then PaidCall
    else FreeCall
  }

  /** The model whose call the record paid for; a cache hit paid for none. */
  function Charged(p: Prices, x: Rec): Option<string> {
    match KindOf(p, x)
    case CacheHit => None
    case Displacement => x.served
    case _ => Some(x.model)
  }

  function Charge(p: Prices, x: Rec): (real, bool) {
    if Charged(p, x).None? then (0.0, true) else p.report(Charged(p, x).value, x.completion)
  }

  function OfKind(p: Prices, k: Kind): Rec -> bool {
    (x: Rec) => KindOf(p, x) == k
  }

  function InClass(q: Rec -> bool, cls: string): Rec -> bool {
    (x: Rec) => q(x) && x.cls == cls
  }

  function HeldOut(): Rec -> bool {
    (x: Rec) => x.holdout
  }

  function PaidHoldout(p: Prices): Rec -> bool {
    (x: Rec) => x.holdout && p.paid(x.model, x.completion)
  }

  function Spend(p: Prices): Rec -> real {
    (x: Rec) => Charge(p, x).0
  }

  function HoldoutSpend(p: Prices): Rec -> real {
    (x: Rec) => if x.holdout then p.report(x.model, x.completion).0 else 0.0
  }

  function Unpriced(p: Prices): Rec -> bool {
    (x: Rec) => !Charge(p, x).1
  }

  // -------------------------------------------------------------- what is promised

  /** The discount of a class: the Wilson lower bound once enough of it was held out. */
  function Factor(p: Prices, rs: seq<Rec>, strict: bool, cls: string): real {
    var n := CountIf(rs, InClass(HeldOut(), cls));
    if n >= p.minHoldout then p.wilson(CountIf(rs, InClass(PaidHoldout(p), cls)), n)
    else if strict then 0.0 else 1.0
  }

  function HitValue(p: Prices, x: Rec, factor: real): real {
    x.completion as real * p.cacheRate * p.multiplier(x.avoided) * factor
  }

  function DisplacementValue(p: Prices, x: Rec): real
    requires Displaced(x)
  {
    x.completion as real * p.shortRate * p.net(x.avoided.value, x.served.value)
  }

  /** What a record saved, given the records it was reported with. */
  function Value(p: Prices, rs: seq<Rec>, strict: bool): Rec -> real {
    (x: Rec) => match KindOf(p, x)
                case CacheHit => HitValue(p, x, Factor(p, rs, strict, x.cls))
                case Displacement => DisplacementValue(p, x)
                case _ => 0.0
  }

  function Within(f: Rec -> real, cls: string): Rec -> real {
    (x: Rec) => if x.cls == cls then f(x) else 0.0
  }

  function Classes(rs: seq<Rec>): set<string> {
    set x <- rs :: x.cls
  }

  /** The buckets of the records' classes when the savings of the records of `done` have been entered. */
  function Buckets(p: Prices, rs: seq<Rec>, f: Rec -> real, done: seq<Rec>): map<string, Bucket> {
    map c | c in Classes(rs) :: BucketOf(p, rs, f, done, c)
  }

  function BucketOf(p: Prices, rs: seq<Rec>, f: Rec -> real, done: seq<Rec>, c: string): Bucket {
    Bucket(CountIf(rs, InClass(OfKind(p, CacheHit), c)), CountIf(rs, InClass(HeldOut(), c)),
           CountIf(rs, InClass(PaidHoldout(p), c)), SumOf(done, Within(f, c)), SelfReported)
  }

  const KINDS := {CacheHit, Holdout, Displacement, PaidCall, FreeCall}

  function Kinds(p: Prices, rs: seq<Rec>): map<Kind, nat> {
    map k | k in KINDS :: CountIf(rs, OfKind(p, k))
  }

  function Tiers(saved: real): map<Tier, real> {
    map[SelfReported := saved, HoldoutValidated := 0.0, ProviderMetered := 0.0]
  }

  /** The whole report as sums over the records. */
  function ReportOf(p: Prices, rs: seq<Rec>, strict: bool): Report {
    var f := Value(p, rs, strict);
    Report(Kinds(p, rs), SumOf(rs, f), SumOf(rs, Spend(p)), SumOf(rs, HoldoutSpend(p)), CountIf(rs, Unpriced(p)),
           Tiers(SumOf(rs, f)), Buckets(p, rs, f, rs))
  }

  function Filter(rs: seq<Rec>, q: Rec -> bool): seq<Rec> {
    if rs == [] then []
    else
      var kept, x := Filter(rs[..|rs| - 1], q), rs[|rs| - 1];
      if q(x) then kept + [x] else kept
  }

  lemma {:induction false} Filtered(rs: seq<Rec>, q: Rec -> bool)
    ensures forall x <- Filter(rs, q) :: q(x) && x in rs
  {
    if rs != [] {
      Filtered(rs[..|rs| - 1], q);
    }
  }

  // ------------------------------------------------------------------------ pass 1

  /** What the first pass leaves behind. */
  datatype Tally = Tally(byClass: map<string, Bucket>, kinds: map<Kind, nat>, spend: real, holdoutCost: real,
                         unpriced: nat, treated: seq<Rec>, displacements: seq<Rec>)

  function TallyOf(p: Prices, rs: seq<Rec>, f: Rec -> real): Tally {
    Tally(Buckets(p, rs, f, []), Kinds(p, rs), SumOf(rs, Spend(p)), SumOf(rs, HoldoutSpend(p)),
          CountIf(rs, Unpriced(p)),
          Filter(rs, OfKind(p, CacheHit)), Filter(rs, OfKind(p, Displacement)))
  }

  const EMPTY_BUCKET := Bucket(0, 0, 0, 0.0, SelfReported)

  lemma {:induction false} NoneInClass(rs: seq<Rec>, q: Rec -> bool, c: string)
    requires c !in Classes(rs)
    ensures CountIf(rs, InClass(q, c)) == 0
  {
    if rs != [] {
      assert rs[|rs| - 1] in rs;
      NoneInClass(rs[..|rs| - 1], q, c);
    }
  }

  lemma ClassesGrow(before: seq<Rec>, x: Rec)
    ensures Classes(before + [x]) == Classes(before) + {x.cls}
  {
  }

  lemma SumGrows(before: seq<Rec>, x: Rec, f: Rec -> real)
    ensures SumOf(before + [x], f) == SumOf(before, f) + f(x)
  {
  }

  lemma BucketGrows(p: Prices, before: seq<Rec>, x: Rec, f: Rec -> real, c: string)
    ensures var b := BucketOf(p, before, f, [], c);
            BucketOf(p, before + [x], f, [], c) == if c == x.cls then Enter(p, b, x) else b
  {
  }

  /** What the first pass does to the bucket of a record's class. */
  function Enter(p: Prices, b: Bucket, x: Rec): Bucket {
    b.(treatedN := b.treatedN + (if KindOf(p, x).CacheHit? then 1 else 0),
       holdoutN := b.holdoutN + (if x.holdout then 1 else 0),
       paidN := b.paidN + if x.holdout && p.paid(x.model, x.completion) then 1 else 0)
  }

  lemma NewBucket(p: Prices, rs: seq<Rec>, f: Rec -> real, c: string)
    requires c !in Classes(rs)
    ensures BucketOf(p, rs, f, [], c) == EMPTY_BUCKET
  {
    NoneInClass(rs, OfKind(p, CacheHit), c);
    NoneInClass(rs, HeldOut(), c);
    NoneInClass(rs, PaidHoldout(p), c);
  }

  function NextBuckets(p: Prices, m: map<string, Bucket>, x: Rec): map<string, Bucket> {
    m[x.cls := Enter(p, if x.cls in m then m[x.cls] else EMPTY_BUCKET, x)]
  }

  function NextKinds(p: Prices, m: map<Kind, nat>, x: Rec): map<Kind, nat>
    requires KINDS <= m.Keys
  {
    m[KindOf(p, x) := m[KindOf(p, x)] + 1]
  }

  /** One more record changes the counts of its own bucket, which may be new. */
  lemma BucketsGrow(p: Prices, before: seq<Rec>, x: Rec, f: Rec -> real)
    ensures Buckets(p, before + [x], f, []) == NextBuckets(p, Buckets(p, before, f, []), x)
  {
    ClassesGrow(before, x);
    forall c ensures BucketOf(p, before + [x], f, [], c) ==
                     if c == x.cls then Enter(p, BucketOf(p, before, f, [], c), x) else BucketOf(p, before, f, [], c) {
      BucketGrows(p, before, x, f, c);
    }
    if x.cls !in Classes(before) {
      NewBucket(p, before, f, x.cls);
    }
  }

  lemma KindsGrow(p: Prices, before: seq<Rec>, x: Rec)
    ensures Kinds(p, before + [x]) == NextKinds(p, Kinds(p, before), x)
  {
  }

  /** What one record adds to the tally. */
  function Next(p: Prices, t: Tally, x: Rec): Tally
    requires KINDS <= t.kinds.Keys
  {
    Tally(NextBuckets(p, t.byClass, x),
          NextKinds(p, t.kinds, x),
          t.spend + Charge(p, x).0,
          t.holdoutCost + HoldoutSpend(p)(x),
          t.unpriced + (if Charge(p, x).1 then 0 else 1),
          if KindOf(p, x).CacheHit? then t.treated + [x] else t.treated,
          if KindOf(p, x).Displacement? then t.displacements + [x] else t.displacements)
  }

  lemma AmountsGrow(p: Prices, before: seq<Rec>, x: Rec)
    ensures SumOf(before + [x], Spend(p)) == SumOf(before, Spend(p)) + Charge(p, x).0
    ensures SumOf(before + [x], HoldoutSpend(p)) == SumOf(before, HoldoutSpend(p)) + HoldoutSpend(p)(x)
    ensures CountIf(before + [x], Unpriced(p)) == CountIf(before, Unpriced(p)) + if Charge(p, x).1 then 0 else 1
  {
  }

  lemma CollectedGrows(p: Prices, before: seq<Rec>, x: Rec, f: Rec -> real)
    ensures var t, t' := TallyOf(p, before, f), TallyOf(p, before + [x], f);
            t'.treated == Next(p, t, x).treated && t'.displacements == Next(p, t, x).displacements
  {
  }

  lemma TallyGrows(p: Prices, before: seq<Rec>, x: Rec, f: Rec -> real)
    ensures TallyOf(p, before + [x], f) == Next(p, TallyOf(p, before, f), x)
  {
    BucketsGrow(p, before, x, f);
    KindsGrow(p, before, x);
    CollectedGrows(p, before, x, f);
    AmountsGrow(p, before, x);
  }

  /** Classify one record: its bucket, the kinds, the spend, the records to be valued later. */
  method TallyOne(p: Prices, t: Tally, x: Rec) returns (t': Tally)
    requires KINDS <= t.kinds.Keys
    ensures t' == Next(p, t, x)
  {
    var b := if x.cls in t.byClass then t.byClass[x.cls] else EMPTY_BUCKET;
    t' := t;
    if x.holdout {
      var (cost, priced) := p.report(x.model, x.completion);
      t' := t'.(kinds := t.kinds[Holdout := t.kinds[Holdout] + 1], spend := t.spend + cost,
                holdoutCost := t.holdoutCost + cost, unpriced := t.unpriced + if priced then 0 else 1);
      b := b.(holdoutN := b.holdoutN + 1);
      if p.paid(x.model, x.completion) {
        b := b.(paidN := b.paidN + 1);
      }
    } else if x.cacheHit {
      t' := t'.(kinds := t.kinds[CacheHit := t.kinds[CacheHit] + 1], treated := t.treated + [x]);
      b := b.(treatedN := b.treatedN + 1);
    } else if Displaced(x) {
      var (cost, priced) := p.report(x.served.value, x.completion);
      t' := t'.(kinds := t.kinds[Displacement := t.kinds[Displacement] + 1], displacements := t.displacements + [x],
                spend := t.spend + cost, unpriced := t.unpriced + if priced then 0 else 1);
    } else {
      var kind := if p.paid(x.model, x.completion) then PaidCall else FreeCall;
      var (cost, priced) := p.report(x.model, x.completion);
      t' := t'.(kinds := t.kinds[kind := t.kinds[kind] + 1], spend := t.spend + cost,
                unpriced := t.unpriced + if priced then 0 else 1);
    }
    t' := t'.(byClass := t.byClass[x.cls := b]);
  }

  method FirstPass(p: Prices, rs: seq<Rec>, ghost f: Rec -> real) returns (t: Tally)
    ensures t == TallyOf(p, rs, f)
  {
    t := Tally(map[], map[CacheHit := 0, Holdout := 0, Displacement := 0, PaidCall := 0, FreeCall := 0],
               0.0, 0.0, 0, [], []);
    for i := 0 to |rs|
      invariant t == TallyOf(p, rs[..i], f)
    {
      assert rs[..i + 1] == rs[..i] + [rs[i]];
      TallyGrows(p, rs[..i], rs[i], f);
      t := TallyOne(p, t, rs[i]);
    }
    assert rs[..|rs|] == rs;
  }

  // ------------------------------------------------------------------------ pass 2

  /** Entering a saving touches the record's own bucket only. */
  function NextSaved(m: map<string, Bucket>, x: Rec, kry: real): map<string, Bucket>
    requires x.cls in m
  {
    m[x.cls := m[x.cls].(saved := m[x.cls].saved + kry, tier := SelfReported)]
  }

  lemma BucketSaving(p: Prices, rs: seq<Rec>, f: Rec -> real, done: seq<Rec>, x: Rec, c: string)
    ensures var b := BucketOf(p, rs, f, done, c);
            BucketOf(p, rs, f, done + [x], c) == if x.cls == c then b.(saved := b.saved + f(x)) else b
  {
    SumGrows(done, x, Within(f, c));
  }

  lemma SavingEntered(p: Prices, rs: seq<Rec>, f: Rec -> real, done: seq<Rec>, x: Rec)
    requires x in rs
    ensures x.cls in Buckets(p, rs, f, done)
    ensures Buckets(p, rs, f, done + [x]) == NextSaved(Buckets(p, rs, f, done), x, f(x))
  {
    var m, m' := Buckets(p, rs, f, done + [x]), NextSaved(Buckets(p, rs, f, done), x, f(x));
    assert m.Keys == m'.Keys;
    forall c | c in m ensures m[c] == m'[c] {
      BucketSaving(p, rs, f, done, x, c);
    }
  }

  lemma TiersGrow(saved: real, kry: real)
    ensures Tiers(saved + kry) == Tiers(saved)[SelfReported := Tiers(saved)[SelfReported] + kry]
  {
  }

  /** The cache hits and the displacements carry the whole saving. */
  lemma SplitSum(p: Prices, rs: seq<Rec>, f: Rec -> real)
    requires forall x :: KindOf(p, x) !in {CacheHit, Displacement} ==> f(x) == 0.0
    ensures SumOf(Filter(rs, OfKind(p, CacheHit)), f) + SumOf(Filter(rs, OfKind(p, Displacement)), f) == SumOf(rs, f)
  {
    SplitBetween(rs, OfKind(p, CacheHit), OfKind(p, Displacement), f);
  }

  /** What is zero outside two disjoint kinds of records is the sum over the two. */
  lemma {:induction false} SplitBetween(rs: seq<Rec>, q: Rec -> bool, r: Rec -> bool, f: Rec -> real)
    requires forall x :: !(q(x) && r(x)) && (!q(x) && !r(x) ==> f(x) == 0.0)
    ensures SumOf(Filter(rs, q), f) + SumOf(Filter(rs, r), f) == SumOf(rs, f)
  {
    if rs != [] {
      SplitBetween(rs[..|rs| - 1], q, r, f);
      FilterSum(rs, q, f);
      FilterSum(rs, r, f);
      EitherShare(q(rs[|rs| - 1]), r(rs[|rs| - 1]), f(rs[|rs| - 1]));
    }
  }

  lemma EitherShare(q: bool, r: bool, x: real)
    requires !(q && r) && (!q && !r ==> x == 0.0)
    ensures (if q then x else 0.0) + (if r then x else 0.0) == x
  {
  }

  lemma FilterSum(rs: seq<Rec>, q: Rec -> bool, f: Rec -> real)
    requires rs != []
    ensures SumOf(Filter(rs, q), f) ==
            SumOf(Filter(rs[..|rs| - 1], q), f) + if q(rs[|rs| - 1]) then f(rs[|rs| - 1]) else 0.0
  {
    SumGrows(Filter(rs[..|rs| - 1], q), rs[|rs| - 1], f);
  }

  lemma {:induction false} SumConcat(a: seq<Rec>, b: seq<Rec>, f: Rec -> real)
    ensures SumOf(a + b, f) == SumOf(a, f) + SumOf(b, f)
  {
    if b == [] {
      assert a + b == a;
    } else {
      assert (a + b)[..|a + b| - 1] == a + b[..|b| - 1];
      SumConcat(a, b[..|b| - 1], f);
    }
  }

  lemma ValuedRecords(p: Prices, rs: seq<Rec>, strict: bool)
    ensures var f := Value(p, rs, strict);
            var valued := Filter(rs, OfKind(p, CacheHit)) + Filter(rs, OfKind(p, Displacement));
            SumOf(valued, f) == SumOf(rs, f) && Buckets(p, rs, f, valued) == Buckets(p, rs, f, rs)
  {
    var f := Value(p, rs, strict);
    var hits, displacements := Filter(rs, OfKind(p, CacheHit)), Filter(rs, OfKind(p, Displacement));
    SumConcat(hits, displacements, f);
    SplitSum(p, rs, f);
    forall c ensures SumOf(hits + displacements, Within(f, c)) == SumOf(rs, Within(f, c)) {
      SumConcat(hits, displacements, Within(f, c));
      SplitSum(p, rs, Within(f, c));
    }
  }

  /** The discount that a bucket's counts give. */
  function DiscountOf(p: Prices, b: Bucket, strict: bool): real {
    if b.holdoutN >= p.minHoldout then p.wilson(b.paidN, b.holdoutN) else if strict then 0.0 else 1.0
  }

  /** What the second pass has entered: buckets, saving and tiers. */
  datatype Books = Books(byClass: map<string, Bucket>, saved: real, tiers: map<Tier, real>)

  type Keeper = seq<Rec> -> map<string, Bucket>

  /** The books after the records of `done`, for any way of keeping buckets. */
  ghost function BooksOf(buckets: Keeper, f: Rec -> real, done: seq<Rec>): Books {
    Books(buckets(done), SumOf(done, f), Tiers(SumOf(done, f)))
  }

  /** The buckets take one saving at a time, and `f` is what the second pass computes from them. */
  ghost predicate Keeps(p: Prices, rs: seq<Rec>, strict: bool, f: Rec -> real, buckets: Keeper) {
    && (forall done, x :: x in rs ==>
          x.cls in buckets(done) && buckets(done + [x]) == NextSaved(buckets(done), x, f(x)))
    && (forall done, x :: x in rs && KindOf(p, x).CacheHit? ==>
          x.cls in buckets(done) && f(x) == HitValue(p, x, DiscountOf(p, buckets(done)[x.cls], strict)))
    && (forall x :: KindOf(p, x).Displacement? ==> f(x) == DisplacementValue(p, x))
  }

  function BucketsBy(p: Prices, rs: seq<Rec>, f: Rec -> real): Keeper {
    (done: seq<Rec>) => Buckets(p, rs, f, done)
  }

  lemma BucketsKeep(p: Prices, rs: seq<Rec>, strict: bool)
    ensures Keeps(p, rs, strict, Value(p, rs, strict), BucketsBy(p, rs, Value(p, rs, strict)))
  {
    var f := Value(p, rs, strict);
    forall done, x | x in rs
      ensures x.cls in Buckets(p, rs, f, done)
      ensures Buckets(p, rs, f, done + [x]) == NextSaved(Buckets(p, rs, f, done), x, f(x))
    {
      SavingEntered(p, rs, f, done, x);
    }
  }

  lemma BooksGrow(p: Prices, rs: seq<Rec>, strict: bool, f: Rec -> real, buckets: Keeper, done: seq<Rec>, x: Rec)
    requires Keeps(p, rs, strict, f, buckets) && x in rs
    ensures x.cls in buckets(done)
    ensures BooksOf(buckets, f, done + [x]) == NextBooks(BooksOf(buckets, f, done), x, f(x))
  {
    SumGrows(done, x, f);
    TiersGrow(SumOf(done, f), f(x));
  }

  function NextBooks(books: Books, x: Rec, kry: real): Books
    requires x.cls in books.byClass && SelfReported in books.tiers
  {
    Books(NextSaved(books.byClass, x, kry), books.saved + kry,
          books.tiers[SelfReported := books.tiers[SelfReported] + kry])
  }

  method EnterSaving(books: Books, x: Rec, kry: real) returns (books': Books)
    requires x.cls in books.byClass && SelfReported in books.tiers
    ensures books' == NextBooks(books, x, kry)
  {
    var b := books.byClass[x.cls];
    books' := books.(saved := books.saved + kry);
    books' := books'.(byClass := books.byClass[x.cls := b.(saved := b.saved + kry, tier := SelfReported)]);
    books' := books'.(tiers := books.tiers[SelfReported := books.tiers[SelfReported] + kry]);
  }

  /** The second pass, with the discounts that the first pass has measured. */
  method EnterHits(p: Prices, start: Books, hits: seq<Rec>, strict: bool,
                   ghost rs: seq<Rec>, ghost f: Rec -> real, ghost buckets: Keeper) returns (books: Books)
    requires Keeps(p, rs, strict, f, buckets) && start == BooksOf(buckets, f, [])
    requires forall x <- hits :: x in rs && KindOf(p, x).CacheHit?
    ensures books == BooksOf(buckets, f, hits)
  {
    books := start;
    for i := 0 to |hits|
      invariant books == BooksOf(buckets, f, hits[..i])
    {
      var x := hits[i];
      BooksGrow(p, rs, strict, f, buckets, hits[..i], x);
      assert hits[..i + 1] == hits[..i] + [x];
      books := EnterSaving(books, x, HitValue(p, x, DiscountOf(p, books.byClass[x.cls], strict)));
    }
    assert hits[..|hits|] == hits;
  }

  method EnterDisplacements(p: Prices, start: Books, displacements: seq<Rec>, ghost rs: seq<Rec>, ghost strict: bool,
                            ghost f: Rec -> real, ghost buckets: Keeper, ghost hits: seq<Rec>) returns (books: Books)
    requires Keeps(p, rs, strict, f, buckets) && start == BooksOf(buckets, f, hits)
    requires forall x <- displacements :: x in rs && KindOf(p, x).Displacement?
    ensures books == BooksOf(buckets, f, hits + displacements)
  {
    books := start;
    assert hits + displacements[..0] == hits;
    for i := 0 to |displacements|
      invariant books == BooksOf(buckets, f, hits + displacements[..i])
    {
      var x := displacements[i];
      assert x in displacements;
      BooksGrow(p, rs, strict, f, buckets, hits + displacements[..i], x);
      assert hits + displacements[..i + 1] == hits + displacements[..i] + [x];
      books := EnterSaving(books, x, DisplacementValue(p, x));
    }
    assert displacements[..|displacements|] == displacements;
  }

  // ------------------------------------------------------------- what is published

  /** A provider call: the model that served it, its usage object and the tier it was billed at. */
  datatype Call = Call(model: string, usage: string, tier: Option<string>)

  /** Contradictory tiers cannot be priced, and batch goes before everything. */
  function TierOf(b: Bill, batch: bool): Option<string> {
    if batch || b.batch then Some("batch")
    else if b.recordTier.None? then b.usageTier
    else if b.usageTier.Some? && b.usageTier != b.recordTier then Some("conflicting_service_tiers")
    else b.recordTier
  }

  function ServedBy(x: Rec): string {
    if x.served.Some? && x.served.value != "" then x.served.value else x.model
  }

  /** The records that were calls: not those served from the gateway's cache. */
  function Calls(rs: seq<Rec>, batch: bool): seq<Call> {
    if rs == [] then []
    else
      var x := rs[|rs| - 1];
      Calls(rs[..|rs| - 1], batch) +
        if x.cacheHit then [] else [Call(ServedBy(x), x.bill.usage, TierOf(x.bill, batch))]
  }

  /** `_provider_calls` */
  method ProviderCalls(rs: seq<Rec>, batch: bool) returns (calls: seq<Call>)
    ensures calls == Calls(rs, batch)
  {
    calls := [];
    for i := 0 to |rs|
      invariant calls == Calls(rs[..i], batch)
    {
      assert rs[..i + 1][..i] == rs[..i];
      if !rs[i].cacheHit {
        calls := calls + [Call(ServedBy(rs[i]), rs[i].bill.usage, TierOf(rs[i].bill, batch))];
      }
    }
    assert rs[..|rs|] == rs;
  }

  datatype Line = Line(treatedN: nat, holdoutN: nat, paidN: nat, pHat: Option<real>, ciLo: Option<real>, saved: real,
                       tier: Tier)

  datatype Published = Published(records: nat, strict: bool, kinds: map<Kind, nat>, saved: real, savedUsd: real,
                                 spend: real, spendUsd: real, unpriced: nat, efficiency: real, tiers: map<Tier, real>,
                                 floor: real, holdoutCost: real, holdoutUsd: real, classesMeasured: nat,
                                 byClass: map<string, Line>, promptCache: string)

  function LineOf(p: Prices, b: Bucket): Line {
    Line(b.treatedN, b.holdoutN, b.paidN,
         if b.holdoutN > 0 then Some(p.round(b.paidN as real / b.holdoutN as real, 4)) else None,
         if b.holdoutN > 0 then Some(p.round(p.wilson(b.paidN, b.holdoutN), 4)) else None,
         p.round(b.saved, 2), b.tier)
  }

  /** `saved / (saved + spend)`, and 0 when nothing flowed. */
  function Efficiency(r: Report): real {
    if r.saved + r.spend == 0.0 then 0.0 else r.saved / (r.saved + r.spend)
  }

  /** The share of the saving that is anchored in evidence. */
  function Floor(r: Report): real
    requires HoldoutValidated in r.tiers && ProviderMetered in r.tiers
  {
    if r.saved > 0.0 then (r.tiers[HoldoutValidated] + r.tiers[ProviderMetered]) / r.saved else 0.0
  }

  function Dollars(p: Prices, kry: real): real {
    kry * p.usdPerKry
  }

  /** The report with its derived figures, rounded as it is published. */
  function Publish(p: Prices, rs: seq<Rec>, strict: bool, batch: bool, r: Report): Published
    requires HoldoutValidated in r.tiers && ProviderMetered in r.tiers
  {
    Published(|rs|, strict, r.kinds, p.round(r.saved, 2), p.round(Dollars(p, r.saved), 4), p.round(r.spend, 2),
              p.round(Dollars(p, r.spend), 4), r.unpriced, p.round(Efficiency(r), 4),
              map t | t in r.tiers :: p.round(r.tiers[t], 2), p.round(Floor(r), 4), p.round(r.holdoutCost, 2),
              p.round(Dollars(p, r.holdoutCost), 4), |set c | c in r.byClass && r.byClass[c].holdoutN > 0|,
              map c | c in r.byClass :: LineOf(p, r.byClass[c]), p.promptCache(Calls(rs, batch)))
  }

  /** The two passes of `analyze`. */
  method TwoPasses(p: Prices, rs: seq<Rec>, strict: bool) returns (r: Report)
    ensures r == ReportOf(p, rs, strict)
  {
    ghost var f := Value(p, rs, strict);
    ghost var buckets := BucketsBy(p, rs, f);
    BucketsKeep(p, rs, strict);
    var t := FirstPass(p, rs, f);
    Filtered(rs, OfKind(p, CacheHit));
    Filtered(rs, OfKind(p, Displacement));
    var books := EnterHits(p, Books(t.byClass, 0.0, Tiers(0.0)), t.treated, strict, rs, f, buckets);
    books := EnterDisplacements(p, books, t.displacements, rs, strict, f, buckets, t.treated);
    ValuedRecords(p, rs, strict);
    r := Report(t.kinds, books.saved, t.spend, t.holdoutCost, t.unpriced, books.tiers, books.byClass);
  }

  /** `analyze` */
  method Analyze(p: Prices, rs: seq<Rec>, strict: bool, batch: bool) returns (r: Published)
    ensures r == Publish(p, rs, strict, batch, ReportOf(p, rs, strict))
  {
    var report := TwoPasses(p, rs, strict);
    var calls := ProviderCalls(rs, batch);
    r := Publish(p, rs, strict, batch, report).(promptCache := p.promptCache(calls));
  }
}
