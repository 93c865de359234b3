/** m-of-n threshold artifacts: `make_policy`, `combine` and `verify_threshold`. */
module Quorum {
  import opened Bytes
  import opened Options
  import opened SigningDomains

  /** Strict base64, ML-DSA, SHA-256 in hex and the key fingerprint (a truncated hash: not assumed injective). */
  datatype Crypto = Crypto(
    b64: bytes -> string,
    unb64: string -> Option<bytes>,
    keyLength: string -> nat,
    signatureLength: string -> nat,
    verify: (string, bytes, bytes, bytes) -> bool,
    sha256: bytes -> bytes,
    fingerprint: bytes -> string)

  /** A JSON field that the code reads; `Nested` is a list or an object, which Python cannot hash. */
  datatype Field = Missing | Null | Str(s: string) | Num(n: int) | Bool(b: bool) | Float(x: real) | Nested

  /** A council member, or a signature entry: an object with its two fields, or something else. */
  datatype Entry = NotAnObject | Entry(fingerprint: Field, blob: Field)

  /** A policy as it comes in; `canon` is the canonical JSON text of the whole of it. */
  datatype Policy = Policy(threshold: Field, alg: Field, signers: Option<seq<Entry>>, canon: bytes)

  datatype Artifact = Artifact(scheme: Field, alg: Field, messageSha256: Option<bytes>, policySha256: Option<bytes>,
                               threshold: Field, councilSize: Field, signatures: Option<seq<Entry>>)

  const ALLOWED_ALGS := {"ML-DSA-44", "ML-DSA-65", "ML-DSA-87"}
  const ARTIFACT_SCHEME := "kry-pqc-threshold/v2"

  function Decoded(c: Crypto, f: Field): Option<bytes> {
    if f.Str? then c.unb64(f.s) else None
  }

  // ------------------------------------------------------------ what is refused

  datatype InputError =
    | NoThreshold
    | BadAlg
    | NoSigners
    | BadThreshold
    | NoSignatures
    | BadSigner(index: nat)
    | BadKey(index: nat)

  predicate GoodSigner(c: Crypto, e: Entry) {
    e.Entry? && e.fingerprint.Str? && Decoded(c, e.blob).Some?
  }

  /** Policies that get as far as the checks. */
  ghost predicate GoodPolicy(c: Crypto, p: Policy) {
    && p.alg.Str? && p.alg.s in ALLOWED_ALGS && p.signers.Some? && p.signers.value != []
    && p.threshold.Num? && 1 <= p.threshold.n <= |p.signers.value|
    && forall i :: 0 <= i < |p.signers.value| ==> GoodSigner(c, p.signers.value[i])
  }

  // ------------------------------------------------------------------ the quorum

  function KeyAt(c: Crypto, signers: seq<Entry>, i: nat): bytes
    requires i < |signers| && GoodSigner(c, signers[i])
  {
    Decoded(c, signers[i].blob).value
  }

  ghost predicate AllGood(c: Crypto, signers: seq<Entry>) {
    forall i :: 0 <= i < |signers| ==> GoodSigner(c, signers[i])
  }

  /** `by_fp`: for a fingerprint listed twice the last entry counts. */
  function ByFingerprint(c: Crypto, signers: seq<Entry>): map<string, bytes>
    requires AllGood(c, signers)
  {
    if signers == [] then map[]
    else
      var n := |signers| - 1;
      ByFingerprint(c, signers[..n])[signers[n].fingerprint.s := KeyAt(c, signers, n)]
  }

  /** The entry is a valid signature by the key with this fingerprint over the message. */
  predicate Signs(c: Crypto, alg: string, message: bytes, keys: map<string, bytes>, e: Entry, fp: string) {
    && e.Entry? && e.fingerprint == Str(fp) && fp in keys
    && Decoded(c, e.blob).Some?
    && |keys[fp]| == c.keyLength(alg) && |Decoded(c, e.blob).value| == c.signatureLength(alg)
    && c.verify(alg, message, Decoded(c, e.blob).value, keys[fp])
  }

  /** Registered fingerprints with at least one valid entry. */
  function Counted(c: Crypto, alg: string, message: bytes, keys: map<string, bytes>,
                   signatures: seq<Entry>): set<string>
  {
    set fp | fp in keys && SomeoneSigns(c, alg, message, keys, signatures, fp)
  }

  predicate SomeoneSigns(c: Crypto, alg: string, message: bytes, keys: map<string, bytes>, signatures: seq<Entry>,
                         fp: string)
  {
    exists k :: 0 <= k < |signatures| && Signs(c, alg, message, keys, signatures[k], fp)
  }

  function Message(c: Crypto, attestation: bytes, p: Policy): bytes {
    ThresholdSignedMessage(attestation, c.sha256(p.canon))
  }

  function CountedFor(c: Crypto, attestation: bytes, p: Policy, a: Artifact): set<string>
    requires GoodPolicy(c, p) && a.signatures.Some?
  {
    Counted(c, p.alg.s, Message(c, attestation, p), ByFingerprint(c, p.signers.value), a.signatures.value)
  }

  /** The checks on the artifact's header. */
  predicate HeaderOk(c: Crypto, attestation: bytes, p: Policy, a: Artifact)
    requires p.signers.Some?
  {
    && a.scheme == Str(ARTIFACT_SCHEME)
    && a.messageSha256 == Some(c.sha256(attestation))
    && a.policySha256 == Some(c.sha256(p.canon))
    && a.threshold.Num? && a.threshold == p.threshold
    && a.alg == p.alg
    && a.councilSize == Num(|p.signers.value|)
  }

  /** The checks on the council: key lengths, labels, no key twice. */
  ghost predicate CouncilOk(c: Crypto, p: Policy)
    requires GoodPolicy(c, p)
  {
    var s := p.signers.value;
    && (forall i :: 0 <= i < |s| ==> |KeyAt(c, s, i)| == c.keyLength(p.alg.s))
    && (forall i :: 0 <= i < |s| ==> c.fingerprint(KeyAt(c, s, i)) == s[i].fingerprint.s)
    && (forall i, j :: 0 <= i < j < |s| ==> KeyAt(c, s, i) != KeyAt(c, s, j))
  }

  // ------------------------------------------------------------------- the code

  /** The counting loop: skips what is not an object, not registered, already counted or not a valid signature. */
  method CountSigners(c: Crypto, alg: string, message: bytes, keys: map<string, bytes>, signatures: seq<Entry>)
    returns (counted: set<string>)
    ensures counted == Counted(c, alg, message, keys, signatures)
  {
    counted := {};
    for k := 0 to |signatures|
      invariant counted == Counted(c, alg, message, keys, signatures[..k])
    {
      var e := signatures[k];
      if !e.Entry? || !e.fingerprint.Str? { continue; }
      var fp := e.fingerprint.s;
      if fp !in keys || fp in counted { continue; }
      if !e.blob.Str? { continue; }
      var sig := c.unb64(e.blob.s);
      if sig.None? { continue; }
      if |keys[fp]| != c.keyLength(alg) || |sig.value| != c.signatureLength(alg) { continue; }
      if c.verify(alg, message, sig.value, keys[fp]) {
        counted := counted + {fp};
      }
    }
    assert signatures[..|signatures|] == signatures;
  }

  method CheckCouncil(c: Crypto, p: Policy) returns (ok: bool)
    requires GoodPolicy(c, p)
    ensures ok <==> CouncilOk(c, p)
  {
    var s := p.signers.value;
    var lengths, labels := true, true;
    for i := 0 to |s|
      invariant lengths <==> forall k :: 0 <= k < i ==> |KeyAt(c, s, k)| == c.keyLength(p.alg.s)
      invariant labels <==> forall k :: 0 <= k < i ==> c.fingerprint(KeyAt(c, s, k)) == s[k].fingerprint.s
    {
      var pk := KeyAt(c, s, i);
      lengths := lengths && |pk| == c.keyLength(p.alg.s);
      labels := labels && c.fingerprint(pk) == s[i].fingerprint.s;
    }
    var distinct := DistinctKeys(c, s);
    ok := lengths && labels && distinct;
  }

  /** `len({keys}) == len(keys)` */
  method DistinctKeys(c: Crypto, s: seq<Entry>) returns (ok: bool)
    requires AllGood(c, s)
    ensures ok <==> forall i, j :: 0 <= i < j < |s| ==> KeyAt(c, s, i) != KeyAt(c, s, j)
  {
    var keys: set<bytes> := {};
    for i := 0 to |s|
      invariant keys == KeySet(c, s, i) && |keys| <= i
      invariant |keys| == i <==> DistinctUpTo(c, s, i)
    {
      keys := keys + {KeyAt(c, s, i)};
    }
    ok := |keys| == |s|;
  }

  ghost predicate DistinctUpTo(c: Crypto, s: seq<Entry>, n: nat)
    requires n <= |s| && AllGood(c, s)
  {
    forall k, l :: 0 <= k < l < n ==> KeyAt(c, s, k) != KeyAt(c, s, l)
  }

  ghost function KeySet(c: Crypto, s: seq<Entry>, n: nat): (keys: set<bytes>)
    requires n <= |s| && AllGood(c, s)
  {
    set k | 0 <= k < n :: KeyAt(c, s, k)
  }

  method BuildIndex(c: Crypto, signers: seq<Entry>) returns (keys: map<string, bytes>)
    requires AllGood(c, signers)
    ensures keys == ByFingerprint(c, signers)
  {
    keys := map[];
    for i := 0 to |signers|
      invariant AllGood(c, signers[..i]) && keys == ByFingerprint(c, signers[..i])
    {
      assert signers[..i + 1][..i] == signers[..i];
      keys := keys[signers[i].fingerprint.s := KeyAt(c, signers, i)];
    }
    assert signers[..|signers|] == signers;
  }

  ghost predicate WellFormed(c: Crypto, policy: Option<Policy>, artifact: Option<Artifact>) {
    policy.Some? && GoodPolicy(c, policy.value) && artifact.Some? && artifact.value.signatures.Some?
  }

  /** Which guard refuses: the first one that fails, in the source's order. */
  ghost predicate Refused(c: Crypto, policy: Option<Policy>, artifact: Option<Artifact>, e: InputError) {
    if policy.None? || policy.value.threshold.Missing? then e == NoThreshold
    else
      var p := policy.value;
      if !p.alg.Str? || p.alg.s !in {"ML-DSA-44", "ML-DSA-65", "ML-DSA-87"} then e == BadAlg
      else if p.signers.None? || p.signers.value == [] then e == NoSigners
      else if !p.threshold.Num? || p.threshold.n < 1 || p.threshold.n > |p.signers.value| then e == BadThreshold
      else if artifact.None? || artifact.value.signatures.None? then e == NoSignatures
      else (e.BadSigner? || e.BadKey?) && FirstBad(c, p.signers.value, e)
  }

  /** The first council entry that is not as it has to be, and whether that is its fingerprint or its key. */
  ghost predicate FirstBad(c: Crypto, signers: seq<Entry>, e: InputError)
    requires e.BadSigner? || e.BadKey?
  {
    && e.index < |signers| && (forall k :: 0 <= k < e.index ==> GoodSigner(c, signers[k]))
    && (var s := signers[e.index];
        if e.BadSigner? then !s.Entry? || !s.fingerprint.Str?
        else s.Entry? && s.fingerprint.Str? && Decoded(c, s.blob).None?)
  }

  /** The guards in front of the checks. */
  method CheckInputs(c: Crypto, policy: Option<Policy>, artifact: Option<Artifact>) returns (e: Option<InputError>)
    ensures e.None? <==> WellFormed(c, policy, artifact)
    ensures e.Some? ==> Refused(c, policy, artifact, e.value)
  {
    if policy.None? || policy.value.threshold.Missing? { return Some(NoThreshold); }
    var p := policy.value;
    if !p.alg.Str? || p.alg.s !in ALLOWED_ALGS { return Some(BadAlg); }
    if p.signers.None? || p.signers.value == [] { return Some(NoSigners); }
    if !p.threshold.Num? || !(1 <= p.threshold.n <= |p.signers.value|) { return Some(BadThreshold); }
    if artifact.None? || artifact.value.signatures.None? { return Some(NoSignatures); }
    for i := 0 to |p.signers.value|
      invariant forall k :: 0 <= k < i ==> GoodSigner(c, p.signers.value[k])
    {
      var s := p.signers.value[i];
      if !s.Entry? || !s.fingerprint.Str? { return Some(BadSigner(i)); }
      if Decoded(c, s.blob).None? { return Some(BadKey(i)); }
    }
    return None;
  }

  /** `verify_threshold`: the verdict and the fingerprints it counted. */
  method VerifyThreshold(c: Crypto, attestation: bytes, artifact: Option<Artifact>, policy: Option<Policy>)
    returns (ok: bool, counted: set<string>, e: Option<InputError>)
    ensures e.None? <==> WellFormed(c, policy, artifact)
    ensures e.Some? ==> Refused(c, policy, artifact, e.value)
    ensures e.None? ==> counted == CountedFor(c, attestation, policy.value, artifact.value)
    ensures ok <==> e.None? && Verifies(c, attestation, artifact.value, policy.value)
  {
    e := CheckInputs(c, policy, artifact);
    if e.Some? { return false, {}, e; }
    var p, a := policy.value, artifact.value;
    var header := HeaderOk(c, attestation, p, a);
    var council := CheckCouncil(c, p);
    var keys := BuildIndex(c, p.signers.value);
    counted := CountSigners(c, p.alg.s, Message(c, attestation, p), keys, a.signatures.value);
    ok := header && council && |counted| >= p.threshold.n;
  }

  /** What an accepted artifact is. */
  ghost predicate Verifies(c: Crypto, attestation: bytes, a: Artifact, p: Policy)
    requires GoodPolicy(c, p) && a.signatures.Some?
  {
    HeaderOk(c, attestation, p, a) && CouncilOk(c, p) && |CountedFor(c, attestation, p, a)| >= p.threshold.n
  }
}
