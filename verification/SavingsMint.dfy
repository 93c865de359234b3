/** What `--mint` writes into the chain for the same records, against what the report values them at. */
module SavingsMint {
  import opened Options
  import opened Totals
  import opened Savings
  import opened SavingsProof

  /** A call of `mint`: its tokens and the models that say what they are worth. */
  datatype Minted = Hit(tokens: real, avoided: Option<string>)
                  | ShortCircuit(tokens: real, replaced: string, served: string)

  function Tokens(x: Rec, factor: real): (t: real)
    ensures factor == 1.0 ==> t == x.completion as real
  {
    x.completion as real * factor
  }

  /** What a record mints, given the discount of its class. Being held out makes no difference here. */
  function MintOf(x: Rec, factor: real): Option<Minted> {
    if x.cacheHit then
      if Tokens(x, factor) >= 1.0 then Some(Hit(Tokens(x, factor), x.avoided)) else None
    else if Displaced(x) then Some(ShortCircuit(x.completion as real, x.avoided.value, x.served.value))
    else None
  }

  function MintsOf(p: Prices, all: seq<Rec>, rs: seq<Rec>): seq<Minted> {
    if rs == [] then []
    else
      var x := rs[|rs| - 1];
      var m := MintOf(x, Factor(p, all, false, x.cls));
      MintsOf(p, all, rs[..|rs| - 1]) + if m.Some? then [m.value] else []
  }

  /** Held-out calls of each class, and how many of them were paid. */
  function HoldoutCounts(p: Prices, rs: seq<Rec>): map<string, (nat, nat)> {
    map c | c in HeldOutClasses(rs) :: CountsOf(p, rs, c)
  }

  function HeldOutClasses(rs: seq<Rec>): set<string> {
    set x | x in rs && x.holdout :: x.cls
  }

  lemma {:induction false} NoHoldouts(rs: seq<Rec>, p: Prices, c: string)
    requires c !in HeldOutClasses(rs)
    ensures CountIf(rs, InClass(HeldOut(), c)) == 0 && CountIf(rs, InClass(PaidHoldout(p), c)) == 0
  {
    if rs != [] {
      assert rs[|rs| - 1] in rs;
      NoHoldouts(rs[..|rs| - 1], p, c);
    }
  }

  function CountsOf(p: Prices, rs: seq<Rec>, c: string): (nat, nat) {
    (CountIf(rs, InClass(HeldOut(), c)), CountIf(rs, InClass(PaidHoldout(p), c)))
  }

  function Bump(p: Prices, c: (nat, nat), x: Rec): (nat, nat) {
    (c.0 + 1, c.1 + if p.paid(x.model, x.completion) then 1 else 0)
  }

  lemma CountsGrow(p: Prices, before: seq<Rec>, x: Rec, c: string)
    ensures CountsOf(p, before + [x], c) ==
            if x.holdout && x.cls == c then Bump(p, CountsOf(p, before, c), x) else CountsOf(p, before, c)
  {
  }

  function NextCounts(p: Prices, m: map<string, (nat, nat)>, x: Rec): map<string, (nat, nat)> {
    if x.holdout then m[x.cls := Bump(p, if x.cls in m then m[x.cls] else (0, 0), x)] else m
  }

  lemma CountsBefore(p: Prices, before: seq<Rec>, c: string)
    ensures CountsOf(p, before, c) == if c in HoldoutCounts(p, before) then HoldoutCounts(p, before)[c] else (0, 0)
  {
    if c !in HeldOutClasses(before) {
      NoHoldouts(before, p, c);
    }
  }

  lemma HoldoutCountsStay(p: Prices, before: seq<Rec>, x: Rec)
    requires !x.holdout
    ensures HoldoutCounts(p, before + [x]) == HoldoutCounts(p, before)
  {
  }

  lemma HoldoutCountsGrow(p: Prices, before: seq<Rec>, x: Rec)
    requires x.holdout
    ensures HoldoutCounts(p, before + [x]) == NextCounts(p, HoldoutCounts(p, before), x)
  {
    var m := HoldoutCounts(p, before + [x]);
    HeldOutClassesGrow(before, x);
    assert m.Keys == NextCounts(p, HoldoutCounts(p, before), x).Keys;
    forall c | c in m ensures m[c] == NextCounts(p, HoldoutCounts(p, before), x)[c] {
      CountsBefore(p, before, c);
      CountsGrow(p, before, x, c);
    }
  }

  lemma HoldoutCountsNext(p: Prices, before: seq<Rec>, x: Rec)
    ensures HoldoutCounts(p, before + [x]) == NextCounts(p, HoldoutCounts(p, before), x)
  {
    if x.holdout {
      HoldoutCountsGrow(p, before, x);
    } else {
      HoldoutCountsStay(p, before, x);
    }
  }

  lemma HeldOutClassesGrow(before: seq<Rec>, x: Rec)
    ensures HeldOutClasses(before + [x]) == HeldOutClasses(before) + if x.holdout then {x.cls} else {}
  {
  }

  method CountHoldout(p: Prices, counts: map<string, (nat, nat)>, x: Rec) returns (counts': map<string, (nat, nat)>)
    ensures counts' == NextCounts(p, counts, x)
  {
    counts' := counts;
    if x.holdout {
      var c := if x.cls in counts then counts[x.cls] else (0, 0);
      c := (c.0 + 1, c.1);
      if p.paid(x.model, x.completion) {
        c := (c.0, c.1 + 1);
      }
      counts' := counts[x.cls := c];
    }
  }

  method CountHoldouts(p: Prices, rs: seq<Rec>) returns (counts: map<string, (nat, nat)>)
    ensures counts == HoldoutCounts(p, rs)
  {
    counts := map[];
    for i := 0 to |rs|
      invariant counts == HoldoutCounts(p, rs[..i])
    {
      assert rs[..i + 1] == rs[..i] + [rs[i]];
      HoldoutCountsNext(p, rs[..i], rs[i]);
      counts := CountHoldout(p, counts, rs[i]);
    }
    assert rs[..|rs|] == rs;
  }

  lemma CountsGiveFactor(p: Prices, rs: seq<Rec>, cls: string)
    ensures var m := HoldoutCounts(p, rs);
            var c := if cls in m then m[cls] else (0, 0);
            Factor(p, rs, false, cls) == if c.0 >= p.minHoldout then p.wilson(c.1, c.0) else 1.0
  {
    if cls !in HeldOutClasses(rs) {
      NoHoldouts(rs, p, cls);
    }
  }

  method MintOne(p: Prices, counts: map<string, (nat, nat)>, x: Rec, ghost rs: seq<Rec>) returns (m: Option<Minted>)
    requires counts == HoldoutCounts(p, rs)
    ensures m == MintOf(x, Factor(p, rs, false, x.cls))
  {
    CountsGiveFactor(p, rs, x.cls);
    if x.cacheHit {
      var c := if x.cls in counts then counts[x.cls] else (0, 0);
      var tokens := if c.0 >= p.minHoldout then Tokens(x, p.wilson(c.1, c.0)) else x.completion as real;
      m := if tokens >= 1.0 then Some(Hit(tokens, x.avoided)) else None;
    } else if Displaced(x) {
      m := Some(ShortCircuit(x.completion as real, x.avoided.value, x.served.value));
    } else {
      m := None;
    }
  }

  /** The minting loop of `_mint_and_attest`. */
  method Mint(p: Prices, rs: seq<Rec>) returns (mints: seq<Minted>)
    ensures mints == MintsOf(p, rs, rs)
  {
    var counts := CountHoldouts(p, rs);
    mints := [];
    for i := 0 to |rs|
      invariant mints == MintsOf(p, rs, rs[..i])
    {
      assert rs[..i + 1][..i] == rs[..i];
      var m := MintOne(p, counts, rs[i], rs);
      mints := mints + if m.Some? then [m.value] else [];
    }
    assert rs[..|rs|] == rs;
  }

  // ----------------------------------------------------------- against the report

  /** A minted amount, valued with the report's rates. */
  function Worth(p: Prices, m: Minted): real {
    match m
    case Hit(tokens, avoided) => tokens * p.cacheRate * p.multiplier(avoided)
    case ShortCircuit(tokens, replaced, served) => tokens * p.shortRate * p.net(replaced, served)
  }

  function TotalWorth(p: Prices, mints: seq<Minted>): real {
    if mints == [] then 0.0 else TotalWorth(p, mints[..|mints| - 1]) + Worth(p, mints[|mints| - 1])
  }

  /** What the record's flags would earn it, held out or not. */
  function Basis(p: Prices, rs: seq<Rec>): Rec -> real {
    (x: Rec) => if x.cacheHit then HitValue(p, x, Factor(p, rs, false, x.cls))
                else if Displaced(x) then DisplacementValue(p, x) else 0.0
  }

  predicate TooSmall(p: Prices, rs: seq<Rec>, x: Rec) {
    x.cacheHit && Tokens(x, Factor(p, rs, false, x.cls)) < 1.0
  }

  /** Value lost to the rule that less than one token is not minted. */
  function Dropped(p: Prices, rs: seq<Rec>): Rec -> real {
    (x: Rec) => if TooSmall(p, rs, x) then Basis(p, rs)(x) else 0.0
  }

  /** Value that held-out records show. The report gives none for them. */
  function HeldOutBasis(p: Prices, rs: seq<Rec>): Rec -> real {
    (x: Rec) => if x.holdout then Basis(p, rs)(x) else 0.0
  }

  /** Value that a strict report leaves out: that of the hits of classes without enough held-out calls. Minting knows
      no strict mode. */
  function Unmeasured(p: Prices, rs: seq<Rec>, strict: bool): Rec -> real {
    (x: Rec) => if strict && KindOf(p, x).CacheHit? && CountIf(rs, InClass(HeldOut(), x.cls)) < p.minHoldout
                then HitValue(p, x, 1.0) else 0.0
  }

  /** A hit mints its discounted tokens if they make a whole one; a rerouted call mints all of its tokens. */
  lemma MintExactly(x: Rec, factor: real)
    ensures Tokens(x, factor) == x.completion as real * factor
    ensures var tokens := Tokens(x, factor);
            MintOf(x, factor) ==
            if x.cacheHit then (if tokens < 1.0 then None else Some(Hit(tokens, x.avoided)))
            else match (x.served, x.avoided)
              case (Some(s), Some(a)) =>
                if s == "" || a == "" || s == a then None else Some(ShortCircuit(x.completion as real, a, s))
              case _ => None
  {
  }

  /** The mint of a record is worth what the report's formula with the same class factor gives. */
  lemma MintedAtBasis(p: Prices, rs: seq<Rec>, x: Rec)
    ensures var m := MintOf(x, Factor(p, rs, false, x.cls));
            (if m.Some? then Worth(p, m.value) else 0.0) + Dropped(p, rs)(x) == Basis(p, rs)(x)
  {
  }

  lemma ReportedAtBasis(p: Prices, rs: seq<Rec>, strict: bool, x: Rec)
    ensures Value(p, rs, strict)(x) + HeldOutBasis(p, rs)(x) + Unmeasured(p, rs, strict)(x) == Basis(p, rs)(x)
  {
  }

  lemma {:induction false} MintedSum(p: Prices, all: seq<Rec>, rs: seq<Rec>)
    ensures TotalWorth(p, MintsOf(p, all, rs)) + SumOf(rs, Dropped(p, all)) == SumOf(rs, Basis(p, all))
  {
    if rs != [] {
      var before, x := rs[..|rs| - 1], rs[|rs| - 1];
      MintedSum(p, all, before);
      MintedAtBasis(p, all, x);
      var m := MintOf(x, Factor(p, all, false, x.cls));
      if m.Some? {
        assert MintsOf(p, all, rs)[..|MintsOf(p, all, before)|] == MintsOf(p, all, before);
      } else {
        assert MintsOf(p, all, rs) == MintsOf(p, all, before);
      }
    }
  }

  lemma {:induction false} ReportedSum(p: Prices, all: seq<Rec>, strict: bool, rs: seq<Rec>)
    ensures SumOf(rs, Value(p, all, strict)) + SumOf(rs, HeldOutBasis(p, all)) + SumOf(rs, Unmeasured(p, all, strict))
            == SumOf(rs, Basis(p, all))
  {
    if rs != [] {
      ReportedSum(p, all, strict, rs[..|rs| - 1]);
      ReportedAtBasis(p, all, strict, rs[|rs| - 1]);
    }
  }

  /** What is minted, with what is too small to mint, is what the report says was saved, with what held-out records show
      on top of it and what a strict report leaves out. */
  lemma MintConservation(p: Prices, rs: seq<Rec>, strict: bool)
    ensures TotalWorth(p, MintsOf(p, rs, rs)) + SumOf(rs, Dropped(p, rs)) ==
            ReportOf(p, rs, strict).saved + SumOf(rs, HeldOutBasis(p, rs)) + SumOf(rs, Unmeasured(p, rs, strict))
  {
    MintedSum(p, rs, rs);
    ReportedSum(p, rs, strict, rs);
  }

  lemma BasisNonNegative(p: Prices, rs: seq<Rec>, x: Rec)
    requires NonNegative(p) && forall k, n :: 0.0 <= p.wilson(k, n)
    ensures Basis(p, rs)(x) >= 0.0
  {
  }

  lemma {:induction false} ZeroSum(rs: seq<Rec>, f: Rec -> real)
    requires forall x <- rs :: f(x) >= 0.0
    ensures SumOf(rs, f) >= 0.0
    ensures SumOf(rs, f) == 0.0 <==> forall x <- rs :: f(x) == 0.0
  {
    if rs != [] {
      assert rs[|rs| - 1] in rs;
      ZeroSum(rs[..|rs| - 1], f);
      assert forall x :: x in rs <==> x in rs[..|rs| - 1] || x == rs[|rs| - 1];
    }
  }

  /** Some held-out record is also marked, with a value, as a cache hit or a displacement. */
  ghost predicate ValuedHoldout(p: Prices, rs: seq<Rec>) {
    exists x <- rs :: x.holdout && Basis(p, rs)(x) != 0.0
  }

  /** Some cache hit with a value is worth less than one token after the discount. */
  ghost predicate ValuedScrap(p: Prices, rs: seq<Rec>) {
    exists x <- rs :: TooSmall(p, rs, x) && Basis(p, rs)(x) != 0.0
  }

  /** The report is strict and some cache hit with a value is of a class without enough held-out calls. */
  ghost predicate ValuedUnmeasured(p: Prices, rs: seq<Rec>, strict: bool) {
    exists x <- rs :: Unmeasured(p, rs, strict)(x) != 0.0
  }

  lemma DifferencesNonNegative(p: Prices, rs: seq<Rec>, strict: bool, x: Rec)
    requires NonNegative(p) && forall k, n :: 0.0 <= p.wilson(k, n)
    ensures HeldOutBasis(p, rs)(x) >= 0.0 && Dropped(p, rs)(x) >= 0.0 && Unmeasured(p, rs, strict)(x) >= 0.0
  {
    BasisNonNegative(p, rs, x);
    FullValueNonNegative(p, x);
  }

  /** In either mode: what is minted is worth what the report says was saved if and only if what is too small to mint
      is worth exactly what held-out records show and a strict report leaves out. Too small hits alone make the mint
      fall short, the other two alone make it exceed the report, each whenever it has a value. */
  lemma MintMatchesReport(p: Prices, rs: seq<Rec>, strict: bool)
    requires NonNegative(p) && forall k, n :: 0.0 <= p.wilson(k, n)
    ensures var minted, saved := TotalWorth(p, MintsOf(p, rs, rs)), ReportOf(p, rs, strict).saved;
            var extra := SumOf(rs, HeldOutBasis(p, rs)) + SumOf(rs, Unmeasured(p, rs, strict));
            var over := ValuedHoldout(p, rs) || ValuedUnmeasured(p, rs, strict);
            && (minted == saved <==> SumOf(rs, Dropped(p, rs)) == extra)
            && (!over ==> minted <= saved && (minted == saved <==> !ValuedScrap(p, rs)))
            && (!ValuedScrap(p, rs) ==> minted >= saved && (minted == saved <==> !over))
  {
    MintConservation(p, rs, strict);
    forall x
      ensures HeldOutBasis(p, rs)(x) >= 0.0 && Dropped(p, rs)(x) >= 0.0 && Unmeasured(p, rs, strict)(x) >= 0.0
    {
      DifferencesNonNegative(p, rs, strict, x);
    }
    ZeroSum(rs, HeldOutBasis(p, rs));
    ZeroSum(rs, Dropped(p, rs));
    ZeroSum(rs, Unmeasured(p, rs, strict));
  }

  /** One call marked as held out and as a cache hit is reported as no saving, and minted in full. */
  lemma HeldOutHitIsMinted(p: Prices, model: string, cls: string, n: nat, bill: Bill, strict: bool)
    requires p.minHoldout > 1 && n >= 1
    ensures var x := Rec(model, n, true, true, None, Some(model), cls, bill);
            ReportOf(p, [x], strict).saved == 0.0 && MintsOf(p, [x], [x]) == [Hit(n as real, Some(model))]
  {
    var x := Rec(model, n, true, true, None, Some(model), cls, bill);
    assert [] + [x] == [x];
    SumGrows([], x, Value(p, [x], strict));
    assert Factor(p, [x], false, cls) == 1.0;
    assert [x][..0] == [] && MintOf(x, 1.0) == Some(Hit(n as real, Some(model)));
  }

  /** A plain hit of a class that was never measured is reported as no saving by a strict report, and minted in full:
      no held-out record has a value here, and nothing is too small. */
  lemma UnmeasuredHitIsMinted(p: Prices, model: string, cls: string, n: nat, bill: Bill)
    requires p.minHoldout >= 1 && n >= 1
    ensures var x := Rec(model, n, true, false, None, Some(model), cls, bill);
            && ReportOf(p, [x], true).saved == 0.0 && MintsOf(p, [x], [x]) == [Hit(n as real, Some(model))]
            && !ValuedHoldout(p, [x]) && !ValuedScrap(p, [x])
  {
    var x := Rec(model, n, true, false, None, Some(model), cls, bill);
    assert [] + [x] == [x] && [x][..0] == [];
    SumGrows([], x, Value(p, [x], true));
    assert Factor(p, [x], false, cls) == 1.0 && Factor(p, [x], true, cls) == 0.0;
    assert MintOf(x, 1.0) == Some(Hit(n as real, Some(model)));
  }

  function Copies(x: Rec, m: nat): (rs: seq<Rec>)
    ensures |rs| == m && forall y <- rs :: y == x
  {
    if m == 0 then [] else Copies(x, m - 1) + [x]
  }

  lemma CountGrows(before: seq<Rec>, x: Rec, q: Rec -> bool)
    ensures CountIf(before + [x], q) == CountIf(before, q) + if q(x) then 1 else 0
  {
    assert (before + [x])[..|before|] == before;
  }

  lemma {:induction false} CountCopies(x: Rec, m: nat, q: Rec -> bool)
    ensures CountIf(Copies(x, m), q) == if q(x) then m else 0
  {
    if m > 0 {
      CountCopies(x, m - 1, q);
      CountGrows(Copies(x, m - 1), x, q);
    }
  }

  lemma {:induction false} SumCopies(x: Rec, m: nat, f: Rec -> real)
    requires f(x) == 0.0
    ensures SumOf(Copies(x, m), f) == 0.0
  {
    if m > 0 {
      SumCopies(x, m - 1, f);
      SumGrows(Copies(x, m - 1), x, f);
    }
  }

  lemma {:induction false} NoMints(p: Prices, all: seq<Rec>, rs: seq<Rec>)
    requires forall x <- rs :: MintOf(x, Factor(p, all, false, x.cls)).None?
    ensures MintsOf(p, all, rs) == []
  {
    if rs != [] {
      assert rs[|rs| - 1] in rs;
      NoMints(p, all, rs[..|rs| - 1]);
    }
  }

  lemma ScrapIsLost(p: Prices, all: seq<Rec>, call: Rec, hit: Rec, m: nat)
    requires !call.cacheHit && !Displaced(call) && hit.cacheHit && Tokens(hit, Factor(p, all, false, hit.cls)) < 1.0
    ensures MintsOf(p, all, Copies(call, m) + [hit]) == []
  {
    NoMints(p, all, Copies(call, m) + [hit]);
  }

  lemma ScrapIsReported(p: Prices, all: seq<Rec>, strict: bool, call: Rec, hit: Rec, m: nat)
    requires call.holdout && KindOf(p, hit).CacheHit?
    ensures SumOf(Copies(call, m) + [hit], Value(p, all, strict)) == HitValue(p, hit, Factor(p, all, strict, hit.cls))
  {
    SumCopies(call, m, Value(p, all, strict));
    SumGrows(Copies(call, m), hit, Value(p, all, strict));
  }

  /** A discounted one-token hit of a class with enough ordinary held-out calls is reported as a saving, in either mode,
      and not minted: no held-out record has a value here. */
  lemma ScrapIsNotMinted(p: Prices, model: string, cls: string, bill: Bill, strict: bool)
    requires p.minHoldout >= 1 && p.cacheRate > 0.0 && p.multiplier(Some(model)) > 0.0
    requires 0.0 < p.wilson(if p.paid(model, 1) then p.minHoldout else 0, p.minHoldout) < 1.0
    ensures var call := Rec(model, 1, false, true, None, None, cls, bill);
            var hit := Rec(model, 1, true, false, None, Some(model), cls, bill);
            var rs := Copies(call, p.minHoldout) + [hit];
            && MintsOf(p, rs, rs) == [] && !ValuedHoldout(p, rs) && ReportOf(p, rs, strict).saved > 0.0
  {
    var call := Rec(model, 1, false, true, None, None, cls, bill);
    var hit := Rec(model, 1, true, false, None, Some(model), cls, bill);
    var rs := Copies(call, p.minHoldout) + [hit];
    CopiesFactor(p, call, hit, p.minHoldout, strict);
    CopiesFactor(p, call, hit, p.minHoldout, false);
    ScrapIsLost(p, rs, call, hit, p.minHoldout);
    ScrapIsReported(p, rs, strict, call, hit, p.minHoldout);
    OneToken(p.cacheRate, p.multiplier(Some(model)), Factor(p, rs, strict, cls));
  }

  lemma CopiesFactor(p: Prices, call: Rec, hit: Rec, m: nat, strict: bool)
    requires m == p.minHoldout && call.holdout && !hit.holdout && call.cls == hit.cls
    ensures Factor(p, Copies(call, m) + [hit], strict, hit.cls) ==
            p.wilson(if p.paid(call.model, call.completion) then m else 0, m)
  {
    var calls := Copies(call, m);
    CountCopies(call, m, InClass(HeldOut(), hit.cls));
    CountCopies(call, m, InClass(PaidHoldout(p), hit.cls));
    CountGrows(calls, hit, InClass(HeldOut(), hit.cls));
    CountGrows(calls, hit, InClass(PaidHoldout(p), hit.cls));
  }

  lemma OneToken(rate: real, multiplier: real, w: real)
    requires rate > 0.0 && multiplier > 0.0 && w > 0.0
    ensures 1.0 * rate * multiplier * w > 0.0
  {
    assert rate * multiplier > 0.0;
  }
}
