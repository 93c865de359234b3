/** `make_policy` and `combine`, and that honest contributions make an artifact that verifies. */
module QuorumCombine {
  import opened Bytes
  import opened Options
  import opened Quorum
  import opened QuorumExact

  /** `make_policy`; the canonical text is that of the policy it builds. `None` is a ValueError. */
  function MakePolicy(c: Crypto, keys: seq<bytes>, threshold: Field, alg: string, canon: bytes): Option<Policy> {
    if !threshold.Num? || !(1 <= threshold.n <= |keys|) then None
    else if DuplicateFingerprints(c, keys) then None
    else Some(Policy(threshold, Str(alg), Some(Members(c, keys)), canon))
  }

  predicate DuplicateFingerprints(c: Crypto, keys: seq<bytes>) {
    exists i, j :: 0 <= i < j < |keys| && c.fingerprint(keys[i]) == c.fingerprint(keys[j])
  }

  function Members(c: Crypto, keys: seq<bytes>): (entries: seq<Entry>)
    ensures |entries| == |keys|
    ensures forall i :: 0 <= i < |keys| ==> entries[i] == Entry(Str(c.fingerprint(keys[i])), Str(c.b64(keys[i])))
  {
    if keys == [] then []
    else Members(c, keys[..|keys| - 1]) + [Entry(Str(c.fingerprint(keys[|keys| - 1])), Str(c.b64(keys[|keys| - 1])))]
  }

  /** What Python hashes and compares in a set: true is 1, and an absent field reads as None. */
  datatype Key = NoneKey | TextKey(s: string) | NumberKey(x: real)

  /** `None` is the TypeError of an unhashable value. */
  function KeyOf(f: Field): Option<Key> {
    match f
    case Missing => Some(NoneKey)
    case Null => Some(NoneKey)
    case Str(s) => Some(TextKey(s))
    case Num(n) => Some(NumberKey(n as real))
    case Bool(b) => Some(NumberKey(if b then 1.0 else 0.0))
    case Float(x) => Some(NumberKey(x))
    case Nested => None
  }

  /** The number that Python compares, where there is one. */
  function NumberIn(f: Field): Option<real> {
    match f
    case Num(n) => Some(n as real)
    case Float(x) => Some(x)
    case Bool(b) => if b then Some(1.0) else Some(0.0)
    case _ => None
  }

  /** Two fields are one key of a set exactly when Python finds them equal: as texts, as numbers, or both as None; only
      lists and objects are no key. */
  lemma SameKey(f: Field, g: Field)
    ensures KeyOf(f).None? <==> f.Nested?
    ensures KeyOf(f).Some? && KeyOf(f) == KeyOf(g) <==>
            (f.Str? && f == g) || (NumberIn(f).Some? && NumberIn(f) == NumberIn(g)) ||
            ((f.Missing? || f.Null?) && (g.Missing? || g.Null?))
  {
  }

  // ----------------------------------------------------------------------- combine

  /** The council lists objects with a fingerprint that can be hashed. */
  predicate Listed(e: Entry) {
    e.Entry? && !e.fingerprint.Missing? && !e.fingerprint.Nested?
  }

  /** A contribution that `combine` can look up: an object whose fingerprint, if any, can be hashed. */
  predicate Lookable(e: Entry) {
    e.Entry? && !e.fingerprint.Nested?
  }

  /** `known`; `None` is a raised error. */
  function KnownKeys(signers: seq<Entry>): Option<set<Key>> {
    if signers == [] then Some({})
    else
      var n := |signers| - 1;
      var before := KnownKeys(signers[..n]);
      if before.None? || !Listed(signers[n]) then None
      else Some(before.value + {KeyOf(signers[n].fingerprint).value})
  }

  /** `[c for c in contributions if c.get("fingerprint") in known]`; `None` is a raised error. */
  function OnlyKnown(known: set<Key>, contributions: seq<Entry>): Option<seq<Entry>> {
    if contributions == [] then Some([])
    else
      var n := |contributions| - 1;
      var kept := OnlyKnown(known, contributions[..n]);
      if kept.None? || !Lookable(contributions[n]) then None
      else if KeyOf(contributions[n].fingerprint).value in known then Some(kept.value + [contributions[n]])
      else kept
  }

  function Bundle(c: Crypto, attestation: bytes, p: Policy, kept: seq<Entry>): Artifact
    requires p.signers.Some?
  {
    Artifact(Str(ARTIFACT_SCHEME), p.alg, Some(c.sha256(attestation)), Some(c.sha256(p.canon)), p.threshold,
             Num(|p.signers.value|), Some(kept))
  }

  /** `combine`; `None` is any raised error. */
  function Combine(c: Crypto, attestation: bytes, p: Policy, contributions: seq<Entry>): Option<Artifact> {
    if p.signers.None? || p.alg.Missing? || p.threshold.Missing? || KnownKeys(p.signers.value).None? then None
    else
      var kept := OnlyKnown(KnownKeys(p.signers.value).value, contributions);
      if kept.None? then None else Some(Bundle(c, attestation, p, kept.value))
  }

  /** `combine` as written: the set of known fingerprints, then the filter. */
  method CombineContributions(c: Crypto, attestation: bytes, p: Policy, contributions: seq<Entry>)
    returns (a: Option<Artifact>)
    ensures a == Combine(c, attestation, p, contributions)
  {
    if p.signers.None? { return None; }
    var signers := p.signers.value;
    var known: set<Key> := {};
    for i := 0 to |signers|
      invariant KnownKeys(signers[..i]) == Some(known)
    {
      assert signers[..i + 1][..i] == signers[..i];
      if !Listed(signers[i]) {
        NoneKnown(signers, i);
        return None;
      }
      known := known + {KeyOf(signers[i].fingerprint).value};
    }
    assert signers[..|signers|] == signers;
    var kept: seq<Entry> := [];
    for i := 0 to |contributions|
      invariant OnlyKnown(known, contributions[..i]) == Some(kept)
    {
      assert contributions[..i + 1][..i] == contributions[..i];
      if !Lookable(contributions[i]) {
        KeptExactly(known, contributions);
        return None;
      }
      if KeyOf(contributions[i].fingerprint).value in known {
        kept := kept + [contributions[i]];
      }
    }
    assert contributions[..|contributions|] == contributions;
    if p.alg.Missing? || p.threshold.Missing? { return None; }
    return Some(Bundle(c, attestation, p, kept));
  }

  lemma {:induction false} NoneKnown(signers: seq<Entry>, i: nat)
    requires i < |signers| && !Listed(signers[i])
    ensures KnownKeys(signers).None?
  {
    if i < |signers| - 1 {
      NoneKnown(signers[..|signers| - 1], i);
    }
  }

  lemma {:induction false} KnownExactly(signers: seq<Entry>)
    ensures KnownKeys(signers).Some? <==> forall i :: 0 <= i < |signers| ==> Listed(signers[i])
    ensures KnownKeys(signers).Some? ==>
              forall i :: 0 <= i < |signers| ==> KeyOf(signers[i].fingerprint).value in KnownKeys(signers).value
  {
    if signers != [] {
      KnownExactly(signers[..|signers| - 1]);
    }
  }

  /** The filter raises nothing exactly when every contribution can be looked up, and keeps the registered ones. */
  lemma {:induction false} KeptExactly(known: set<Key>, contributions: seq<Entry>)
    ensures var kept := OnlyKnown(known, contributions);
            && (kept.Some? <==> forall k :: 0 <= k < |contributions| ==> Lookable(contributions[k]))
            && (kept.Some? ==> forall e :: e in kept.value <==>
                  e in contributions && KeyOf(e.fingerprint).value in known)
  {
    if contributions != [] {
      var n := |contributions| - 1;
      KeptExactly(known, contributions[..n]);
      assert forall e :: e in contributions <==> e in contributions[..n] || e == contributions[n];
    }
  }

  /** For a policy that lists its council properly, `combine` gives an artifact if and only if every contribution is an
      object whose fingerprint is not a list or an object. */
  lemma CombineExact(c: Crypto, attestation: bytes, p: Policy, contributions: seq<Entry>)
    requires p.signers.Some? && !p.alg.Missing? && !p.threshold.Missing?
    requires forall i :: 0 <= i < |p.signers.value| ==> Listed(p.signers.value[i])
    ensures Combine(c, attestation, p, contributions).Some? <==>
            forall k :: 0 <= k < |contributions| ==> Lookable(contributions[k])
  {
    KnownExactly(p.signers.value);
    KeptExactly(KnownKeys(p.signers.value).value, contributions);
  }

  /** One piece of junk that is no object, or has a list for a fingerprint, and there is no artifact, whatever else was
      contributed. */
  lemma JunkStopsCombine(c: Crypto, attestation: bytes, p: Policy, before: seq<Entry>, after: seq<Entry>, blob: Field)
    ensures Combine(c, attestation, p, before + [NotAnObject] + after).None?
    ensures Combine(c, attestation, p, before + [Entry(Nested, blob)] + after).None?
  {
    if p.signers.Some? && KnownKeys(p.signers.value).Some? {
      var known := KnownKeys(p.signers.value).value;
      KeptExactly(known, before + [NotAnObject] + after);
      KeptExactly(known, before + [Entry(Nested, blob)] + after);
      assert (before + [NotAnObject] + after)[|before|] == NotAnObject;
      assert (before + [Entry(Nested, blob)] + after)[|before|] == Entry(Nested, blob);
    }
  }

  // ------------------------------------------------------------------ completeness

  ghost predicate Base64Inverts(c: Crypto) {
    forall s: bytes :: c.unb64(c.b64(s)) == Some(s)
  }

  /** The members of whom some contribution is a valid signature. */
  ghost function Contributors(c: Crypto, attestation: bytes, p: Policy, contributions: seq<Entry>, keys: seq<bytes>)
    : set<nat>
    requires p.alg.Str?
  {
    set i: nat | i < |keys| && exists e <- contributions :: SignedEntry(c, attestation, p, keys[i], e)
  }

  /** A policy is made exactly for a threshold between 1 and the size of the council and keys with different
      fingerprints; it lists the keys in order under their fingerprints. */
  lemma MadeExactly(c: Crypto, keys: seq<bytes>, threshold: Field, alg: string, canon: bytes)
    ensures var p := MakePolicy(c, keys, threshold, alg, canon);
            && (p.Some? <==> threshold.Num? && 1 <= threshold.n <= |keys| &&
                             forall i, j :: 0 <= i < |keys| && 0 <= j < |keys| && i != j ==>
                               c.fingerprint(keys[i]) != c.fingerprint(keys[j]))
            && (p.Some? ==> p.value == Policy(threshold, Str(alg), Some(Members(c, keys)), canon))
  {
  }

  lemma MadePolicyIsGood(c: Crypto, keys: seq<bytes>, threshold: Field, alg: string, canon: bytes)
    requires Base64Inverts(c) && alg in ALLOWED_ALGS && MakePolicy(c, keys, threshold, alg, canon).Some?
    requires forall i :: 0 <= i < |keys| ==> |keys[i]| == c.keyLength(alg)
    ensures var p := MakePolicy(c, keys, threshold, alg, canon).value;
            GoodPolicy(c, p) && CouncilOk(c, p) &&
            forall i :: 0 <= i < |keys| ==> KeyAt(c, p.signers.value, i) == keys[i]
  {
  }

  /** Nobody's contribution is lost, and nobody else's is added. */
  lemma SignedIsContributed(c: Crypto, attestation: bytes, p: Policy, contributions: seq<Entry>, keys: seq<bytes>)
    requires GoodPolicy(c, p) && |keys| == |p.signers.value| && ProperCouncil(c, p, keys)
    requires Combine(c, attestation, p, contributions).Some?
    requires forall i :: 0 <= i < |keys| ==> LastOfLabel(c, keys, i)
    ensures Signed(c, attestation, Combine(c, attestation, p, contributions).value, p, keys) ==
            Contributors(c, attestation, p, contributions, keys)
  {
    var kept := Combine(c, attestation, p, contributions).value.signatures.value;
    KnownExactly(p.signers.value);
    KeptExactly(KnownKeys(p.signers.value).value, contributions);
    forall i: nat, e | i < |keys| && SignedEntry(c, attestation, p, keys[i], e)
      ensures e in kept <==> e in contributions
    {
      assert ProperMember(c, p, i, keys[i]);
    }
  }

  /** End to end: for a policy built by `make_policy` over keys of the right length, `combine` gives an artifact if and
      only if every contribution can be looked up; and that artifact verifies if and only if at least `threshold`
      members contributed a valid signature, in any order and among anything else. */
  lemma HonestArtifactVerifies(c: Crypto, keys: seq<bytes>, threshold: Field, alg: string, canon: bytes,
                               attestation: bytes, contributions: seq<Entry>)
    requires alg in {"ML-DSA-44", "ML-DSA-65", "ML-DSA-87"}
    requires Base64Inverts(c) && MakePolicy(c, keys, threshold, alg, canon).Some?
    requires forall i :: 0 <= i < |keys| ==> |keys[i]| == c.keyLength(alg)
    ensures var p := MakePolicy(c, keys, threshold, alg, canon).value;
            var a := Combine(c, attestation, p, contributions);
            && GoodPolicy(c, p)
            && (a.Some? <==> forall k :: 0 <= k < |contributions| ==> Lookable(contributions[k]))
            && (a.Some? ==>
                  (Verifies(c, attestation, a.value, p) <==>
                   |Contributors(c, attestation, p, contributions, keys)| >= threshold.n))
  {
    var p := MakePolicy(c, keys, threshold, alg, canon).value;
    MadePolicyIsGood(c, keys, threshold, alg, canon);
    CombineExact(c, attestation, p, contributions);
    if Combine(c, attestation, p, contributions).Some? {
      assert KeysOf(c, p.signers.value) == keys;
      CouncilExactly(c, p);
      VerifiesExactly(c, attestation, Combine(c, attestation, p, contributions).value, p);
      SignedIsContributed(c, attestation, p, contributions, keys);
    }
  }
}
