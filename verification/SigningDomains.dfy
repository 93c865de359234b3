/** The bytes a signature is computed over, in each of the signing contexts. */
module SigningDomains {
  import opened Bytes

  /** "kry-pqc/v2/", the common start of the reserved domains. */
  const V2_PREFIX: bytes := [0x6B, 0x72, 0x79, 0x2D, 0x70, 0x71, 0x63, 0x2F, 0x76, 0x32, 0x2F]

  /** "single" and "threshold", each closed by a zero byte. */
  const SINGLE: bytes := [0x73, 0x69, 0x6E, 0x67, 0x6C, 0x65, 0]
  const THRESHOLD: bytes := [0x74, 0x68, 0x72, 0x65, 0x73, 0x68, 0x6F, 0x6C, 0x64, 0]

  const DOMAIN_SINGLE := V2_PREFIX + SINGLE
  const DOMAIN_THRESHOLD := V2_PREFIX + THRESHOLD

  /** `single_signed_message` */
  function SingleSignedMessage(attestation: bytes): bytes {
    DOMAIN_SINGLE + attestation
  }

  /** `threshold_signed_message` */
  function ThresholdSignedMessage(attestation: bytes, policyDigest: bytes): bytes {
    DOMAIN_THRESHOLD + (policyDigest + ([0] + attestation))
  }

  /** Scheme v1 signs the raw bytes; v2 signs for one key or for the council with this policy digest. */
  datatype Context = V1 | V2Single | V2Threshold(policyDigest: bytes)

  function SignedBytes(c: Context, attestation: bytes): bytes {
    match c
    case V1 => attestation
    case V2Single => SingleSignedMessage(attestation)
    case V2Threshold(d) => ThresholdSignedMessage(attestation, d)
  }

  /** What the verifiers let through: v1 only for bytes outside the reserved domains; a policy digest is hex text,
      so it holds no zero byte. */
  predicate Acceptable(c: Context, attestation: bytes) {
    match c
    case V1 => !(DOMAIN_SINGLE <= attestation) && !(DOMAIN_THRESHOLD <= attestation)
    case V2Single => true
    case V2Threshold(d) => 0 !in d
  }

  lemma Cancel(a: bytes, s: bytes, t: bytes)
    requires a + s == a + t
    ensures s == t
  {
    assert s == (a + s)[|a|..] && t == (a + t)[|a|..];
  }

  lemma DomainsDiffer(s: bytes)
    requires |s| > |V2_PREFIX|
    ensures DOMAIN_SINGLE <= s ==> s[|V2_PREFIX|] == 0x73
    ensures DOMAIN_THRESHOLD <= s ==> s[|V2_PREFIX|] == 0x74
  {
  }

  lemma {:induction false} UpToZero(d: bytes, s: bytes, e: bytes, t: bytes)
    requires 0 !in d && 0 !in e && d + ([0] + s) == e + ([0] + t)
    ensures d == e && s == t
  {
    if d == [] && e == [] {
      assert d + ([0] + s) == [0] + s && e + ([0] + t) == [0] + t;
      Cancel([0], s, t);
    } else if d != [] && e != [] {
      assert d[0] == (d + ([0] + s))[0] == (e + ([0] + t))[0] == e[0];
      assert (d + ([0] + s))[1..] == d[1..] + ([0] + s) && (e + ([0] + t))[1..] == e[1..] + ([0] + t);
      UpToZero(d[1..], s, e[1..], t);
      assert d == [d[0]] + d[1..] && e == [e[0]] + e[1..];
    } else {
      FirstIsZero(d, s);
      FirstIsZero(e, t);
    }
  }

  lemma FirstIsZero(d: bytes, s: bytes)
    requires 0 !in d
    ensures (d + ([0] + s))[0] == 0 <==> d == []
  {
  }

  /** Signed bytes determine the scheme, the policy digest and the attestation: no signature made in one context
      is a signature over anything in another. */
  lemma SignedBytesDetermineContext(c: Context, a: bytes, c': Context, a': bytes)
    requires Acceptable(c, a) && Acceptable(c', a') && SignedBytes(c, a) == SignedBytes(c', a')
    ensures c == c' && a == a'
  {
    var s := SignedBytes(c, a);
    if |s| > |V2_PREFIX| {
      DomainsDiffer(s);
    }
    match c
    case V1 =>
    case V2Single => Cancel(DOMAIN_SINGLE, a, a');
    case V2Threshold(d) =>
      Cancel(DOMAIN_THRESHOLD, d + ([0] + a), c'.policyDigest + ([0] + a'));
      UpToZero(d, a, c'.policyDigest, a');
  }

  /** What is let through, exactly: under v1 everything that starts with neither domain, for one key everything, for a
      council everything if its digest has no zero byte. */
  lemma AcceptableExactly(a: bytes, d: bytes)
    ensures Acceptable(V1, a) <==> forall rest :: a != DOMAIN_SINGLE + rest && a != DOMAIN_THRESHOLD + rest
    ensures Acceptable(V2Single, a) && (Acceptable(V2Threshold(d), a) <==> 0 !in d)
  {
    if DOMAIN_SINGLE <= a {
      assert a == DOMAIN_SINGLE + a[|DOMAIN_SINGLE|..];
    }
    if DOMAIN_THRESHOLD <= a {
      assert a == DOMAIN_THRESHOLD + a[|DOMAIN_THRESHOLD|..];
    }
  }

  /** Without the v1 guard this fails in both v2 contexts: a v2 message relabelled as a v1 attestation has the same
      signed bytes. The guard refuses every such relabelling. */
  lemma GuardIsNeeded(c: Context, a: bytes)
    requires c != V1 && Acceptable(c, a)
    ensures SignedBytes(V1, SignedBytes(c, a)) == SignedBytes(c, a) && !Acceptable(V1, SignedBytes(c, a))
  {
  }

  /** The bytes are the ASCII codes of the text. */
  ghost predicate Spells(b: bytes, s: string) {
    |b| == |s| && forall i :: 0 <= i < |s| ==> b[i] == s[i] as int
  }

  /** The domains are the texts that the documentation names, each closed by a zero byte. */
  lemma DomainTexts()
    ensures Spells(V2_PREFIX, "kry-pqc/v2/") && Spells(SINGLE[..6], "single") && Spells(THRESHOLD[..9], "threshold")
    ensures DOMAIN_SINGLE == V2_PREFIX + SINGLE[..6] + [0] && DOMAIN_THRESHOLD == V2_PREFIX + THRESHOLD[..9] + [0]
  {
  }
}
