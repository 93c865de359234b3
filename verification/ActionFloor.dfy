/** Tier honesty: what a declared veracity floor can claim. */
module ActionFloor {
  import opened Options
  import opened Json
  import opened ActionChain

  /** What Python takes for false. */
  const FALSY := {Null, Bool(false), Int(0), Float("0.0"), Float("-0.0"), String([]), Array([]), Object([])}

  /** The link names an anchored tier and carries a witness. */
  predicate Witnessed(link: Members) {
    var tier, evidence := Get(link, Units("evidence_tier")), Get(link, Units("server_evidence_commit"));
    && (tier == Some(Text("server_witnessed")) || tier == Some(Text("attested")))
    && evidence.Some? && evidence.value !in FALSY
  }

  /** A link counts as anchored exactly when it names an anchored tier and carries a witness. */
  lemma AnchoredNeedsWitness(link: Members)
    ensures AnchoredTier(EffectiveTier(link)) <==> Witnessed(link)
  {
    TiersDiffer();
  }

  lemma TiersDiffer()
    ensures !AnchoredTier(Text("self_reported"))
  {
    assert |Units("self_reported")| == 13 && |Units("server_witnessed")| == 16 && |Units("attested")| == 8;
  }

  /** Which of the first `n` links are anchored. */
  function WitnessedUpTo(links: seq<Value>, n: nat): set<nat>
    requires n <= |links|
  {
    set i: nat | i < n && Witnessed(Fields(links[i]))
  }

  lemma OneMoreLink(links: seq<Value>, n: nat)
    requires n < |links|
    ensures Anchored(links, n + 1) == Anchored(links, n) + if Witnessed(Fields(links[n])) then 1 else 0
    ensures |WitnessedUpTo(links, n + 1)| == |WitnessedUpTo(links, n)| + if Witnessed(Fields(links[n])) then 1 else 0
  {
    AnchoredNeedsWitness(Fields(links[n]));
    assert WitnessedUpTo(links, n + 1) ==
           WitnessedUpTo(links, n) + if Witnessed(Fields(links[n])) then {n} else {};
  }

  lemma {:induction false} AnchoredCount(links: seq<Value>, n: nat)
    requires n <= |links|
    ensures Anchored(links, n) == |WitnessedUpTo(links, n)|
  {
    if n > 0 {
      AnchoredCount(links, n - 1);
      OneMoreLink(links, n - 1);
    }
  }

  /** How many links are anchored. */
  function WitnessedLinks(links: seq<Value>): nat {
    |WitnessedUpTo(links, |links|)|
  }

  /** `t` ten-thousandths are within half a ten-thousandth of k / n. */
  predicate Close(t: nat, k: nat, n: nat) {
    2 * (t * n) <= 20000 * k + n && 20000 * k <= 2 * (t * n) + n
  }

  /** The declared rounding: to the nearest ten-thousandth, to an even one half-way. */
  lemma RoundedToNearest(k: nat, n: nat)
    requires n > 0
    ensures var t := TenThousandths(k, n);
            Close(t, k, n) && (2 * (t * n) == 20000 * k + n || 20000 * k == 2 * (t * n) + n ==> t % 2 == 0)
  {
    var q := 10000 * k / n;
    assert 10000 * k == q * n + 10000 * k % n;
    assert (q + 1) * n == q * n + n;
  }

  /** Both sides of an inequality between reals, scaled by a positive number. */
  lemma Unscale(y: real, x: real, gap: real, m: real)
    requires m > 0.0 && y * m - x * m <= gap * m
    ensures y - x <= gap
  {
  }

  lemma QuotientDistance(t: nat, k: nat, n: nat)
    requires n > 0 && Close(t, k, n)
    ensures Distance(t as real / 10000.0, k as real / n as real) <= 0.00005
  {
    var m, x, y := n as real, k as real / n as real, t as real / 10000.0;
    assert x * m == k as real;
    assert (t * n) as real == t as real * m;
    Unscale(y, x, 0.00005, m);
    Unscale(x, y, 0.00005, m);
  }

  /** The derived floor is the fraction of witnessed links, to half a ten-thousandth. */
  lemma DerivedIsFraction(links: seq<Value>)
    requires links != []
    ensures Distance(DerivedFloor(links), WitnessedLinks(links) as real / |links| as real) <= 0.00005
  {
    AnchoredCount(links, |links|);
    RoundedToNearest(Anchored(links, |links|), |links|);
    QuotientDistance(TenThousandths(Anchored(links, |links|), |links|), Anchored(links, |links|), |links|);
  }

  /** An accepted floor is a number within 0.01005 of the fraction of links that carry a witness for an anchored
      tier. */
  lemma FloorIsHonest(env: Env, att: Value, veracity: Members, claimed: Value)
    requires Accepts(env, att) && Get(att.members, Units("veracity")) == Some(Object(veracity))
    requires Get(veracity, Units("veracity_floor")) == Some(claimed) && LinksOf(att).value != []
    ensures var links := LinksOf(att).value;
            (claimed.Int? || claimed.Float?) && env.number(claimed).Some? &&
            Distance(env.number(claimed).value, WitnessedLinks(links) as real / |links| as real) <= 0.01005
  {
    DerivedIsFraction(LinksOf(att).value);
  }

  /** The other way round a declared number within 0.00995 of that fraction always passes. */
  lemma HonestFloorPasses(env: Env, links: seq<Value>, claimed: Value)
    requires links != [] && (claimed.Int? || claimed.Float?) && env.number(claimed).Some?
    requires Distance(env.number(claimed).value, WitnessedLinks(links) as real / |links| as real) <= 0.00995
    ensures FloorClose(env, claimed, links)
  {
    DerivedIsFraction(links);
  }

  /** An empty log can only declare a floor of about nothing. */
  lemma EmptyFloor(env: Env, claimed: Value)
    requires (claimed.Int? || claimed.Float?) && env.number(claimed).Some?
    ensures FloorClose(env, claimed, []) <==> -0.01 <= env.number(claimed).value <= 0.01
  {
  }
}
