/** The stranger's check of an action attestation: `verify_action_attestation` and `verify_against_anchor`. */
module ActionChain {
  import opened Options
  import opened Json
  import JsonLimits
  import opened JsonWalk

  /** What is not computed here: SHA-256 in hex over a text, the big-endian hex of a JSON number's double (or the
      sentinel when it has none), and the finite value of a JSON number. */
  datatype Env = Env(hash: string -> string, f64: Value -> string, number: Value -> Option<real>)

  /** The genesis string: 64 zeros. */
  const GENESIS := Zeros(64)

  function Zeros(n: nat): (s: string)
    ensures |s| == n && forall i :: 0 <= i < n ==> s[i] == '0'
  {
    if n == 0 then "" else Zeros(n - 1) + "0"
  }

  const NO_DOUBLE := "ffffffffffffffff"

  type Members = seq<(Str, Value)>

  function Text(s: string): Value {
    String(Units(s))
  }

  function GetOr(link: Members, key: string, default: Value): Value {
    match Get(link, Units(key)) case Some(v) => v case None => default
  }

  predicate IsNumber(v: Value) {
    v.Int? || v.Float?
  }

  /** `_canon_f64`: only a JSON number has a double. */
  function CanonF64(env: Env, v: Value): string {
    if IsNumber(v) then env.f64(v) else NO_DOUBLE
  }

  /** `_receipt_payload`: the hashed projection of a link, in key order. */
  function Payload(env: Env, link: Members): Value {
    Object([
      (Units("action_hash_version"), Int(1)),
      (Units("agent_id"), GetOr(link, "agent_id", Text(""))),
      (Units("args_commit"), GetOr(link, "args_commit", Text(""))),
      (Units("evidence_tier"), GetOr(link, "evidence_tier", Text(""))),
      (Units("result_commit"), GetOr(link, "result_commit", Null)),
      (Units("server_evidence_commit"), GetOr(link, "server_evidence_commit", Null)),
      (Units("status"), GetOr(link, "status", Text(""))),
      (Units("tool"), GetOr(link, "tool", Text(""))),
      (Units("ts"), Text(CanonF64(env, GetOr(link, "ts", Null))))])
  }

  function ReceiptText(env: Env, link: Members): string {
    Canon(Payload(env, link))
  }

  /** Receipt hashes, and the texts they are hashes of, as functions of a link: the chain is over any of them. */
  type Receipt = Members -> string

  function Hashed(env: Env, text: Members -> string): Receipt {
    link => env.hash(text(link))
  }

  function ReceiptTexts(env: Env): Members -> string {
    link => ReceiptText(env, link)
  }

  function ReceiptHash(env: Env): Receipt {
    Hashed(env, ReceiptTexts(env))
  }

  /** The text hashed for a link: the previous chain hash, a colon, the receipt hash. */
  function ChainText(receipt: Receipt, prev: string, link: Members): string {
    prev + (":" + receipt(link))
  }

  /** Fields of a link; a link that is not an object has none. */
  function Fields(link: Value): Members {
    if link.Object? then link.members else []
  }

  /** The chain hash after `n` links. */
  function ChainAt(env: Env, receipt: Receipt, links: seq<Value>, n: nat): string
    requires n <= |links|
  {
    if n == 0 then GENESIS
    else env.hash(ChainText(receipt, ChainAt(env, receipt, links, n - 1), Fields(links[n - 1])))
  }

  datatype Fault = NotObject | IdNotString | DuplicateId | ReceiptMismatch | ChainMismatch | BadTimestamp

  function IdOf(link: Value): Option<Value> {
    Get(Fields(link), Units("receipt_id"))
  }

  /** What is wrong with a link, given the chain hash before it and whether its id has been seen. */
  function LinkFault(env: Env, receipt: Receipt, link: Value, prev: string, seen: bool): Option<Fault> {
    if !link.Object? then Some(NotObject)
    else if IdOf(link).None? || !IdOf(link).value.String? then Some(IdNotString)
    else if seen then Some(DuplicateId)
    else if Get(link.members, Units("receipt_hash")) != Some(Text(receipt(link.members))) then Some(ReceiptMismatch)
    else if Get(link.members, Units("chain_hash")) != Some(Text(env.hash(ChainText(receipt, prev, link.members)))) then
      Some(ChainMismatch)
    else if BadTime(env, link.members) then Some(BadTimestamp)
    else None
  }

  predicate SeenBefore(links: seq<Value>, i: nat)
    requires i < |links|
  {
    exists j :: 0 <= j < i && IdOf(links[j]) == IdOf(links[i])
  }

  function FaultAt(env: Env, receipt: Receipt, links: seq<Value>, i: nat): Option<Fault>
    requires i < |links|
  {
    LinkFault(env, receipt, links[i], ChainAt(env, receipt, links, i), SeenBefore(links, i))
  }

  predicate BadTime(env: Env, link: Members) {
    Get(link, Units("ts")).Some? && CanonF64(env, Get(link, Units("ts")).value) == NO_DOUBLE
  }

  /** The integrity loop passes. */
  ghost predicate Intact(env: Env, receipt: Receipt, links: seq<Value>) {
    forall i :: 0 <= i < |links| ==> FaultAt(env, receipt, links, i).None?
  }

  ghost predicate FirstFault(env: Env, receipt: Receipt, links: seq<Value>, i: nat, fault: Fault) {
    i < |links| && FaultAt(env, receipt, links, i) == Some(fault) &&
    forall j :: 0 <= j < i ==> FaultAt(env, receipt, links, j).None?
  }

  // ---------------------------------------------------------------- the floor

  predicate Truthy(v: Value) {
    match v
    case Null => false
    case Bool(b) => b
    case Int(n) => n != 0
    case Float(r) => r != "0.0" && r != "-0.0"
    case String(s) => s != []
    case Array(items) => items != []
    case Object(members) => members != []
  }

  predicate AnchoredTier(tier: Value) {
    tier == Text("server_witnessed") || tier == Text("attested")
  }

  /** `_effective_tier` */
  function EffectiveTier(link: Members): Value {
    var tier := GetOr(link, "evidence_tier", Text("self_reported"));
    if !tier.String? then Text("self_reported")
    else if AnchoredTier(tier) && !Truthy(GetOr(link, "server_evidence_commit", Null)) then Text("self_reported")
    else tier
  }

  function Anchored(links: seq<Value>, n: nat): (k: nat)
    requires n <= |links|
    ensures k <= n
  {
    if n == 0 then 0 else Anchored(links, n - 1) + if AnchoredTier(EffectiveTier(Fields(links[n - 1]))) then 1 else 0
  }

  /** `round(k / n, 4)` on the exact quotient, ties to even, in ten-thousandths. */
  function TenThousandths(k: nat, n: nat): nat
    requires n > 0
  {
    var q, r := 10000 * k / n, 10000 * k % n;
    if 2 * r < n || (2 * r == n && q % 2 == 0) then q else q + 1
  }

  function DerivedFloor(links: seq<Value>): real {
    if links == [] then 0.0 else TenThousandths(Anchored(links, |links|), |links|) as real / 10000.0
  }

  function Distance(x: real, y: real): real {
    if x < y then y - x else x - y
  }

  // -------------------------------------------------------------- the verdict

  datatype Reason =
    | LimitExceeded(e: LimitError)
    | NotAnObject
    | WrongKind
    | WrongVersion
    | NoLinks
    | BadLink(index: nat, fault: Fault)
    | TipMismatch
    | CountMismatch
    | VeracityNotObject
    | FloorNotNumber
    | FloorMismatch

  datatype Verdict = Accepted | Rejected(reason: Reason)

  function LinksOf(att: Value): Option<seq<Value>> {
    if !att.Object? then None
    else match Get(att.members, Units("links"))
      case Some(Array(items)) => Some(items)
      case _ => None
  }

  /** `None` when the attestation does not declare a floor. */
  function ClaimedFloor(att: Value): Option<Value> {
    if !att.Object? then None
    else match Get(att.members, Units("veracity"))
      case Some(Object(m)) => Get(m, Units("veracity_floor"))
      case _ => None
  }

  predicate Limited(v: Value) {
    JsonLimits.Depth(v) <= JsonLimits.MAX_DEPTH && IntegersFit(v)
  }

  predicate FloorOk(env: Env, att: Value, links: seq<Value>)
    requires att.Object?
  {
    (Get(att.members, Units("veracity")).Some? ==> Get(att.members, Units("veracity")).value.Object?) &&
    (ClaimedFloor(att).Some? ==> FloorClose(env, ClaimedFloor(att).value, links))
  }

  predicate FloorClose(env: Env, claimed: Value, links: seq<Value>) {
    IsNumber(claimed) && env.number(claimed).Some? &&
    Distance(env.number(claimed).value, DerivedFloor(links)) <= 0.01
  }

  /** What an accepted attestation is. */
  ghost predicate Accepts(env: Env, att: Value) {
    && Limited(att)
    && att.Object?
    && Get(att.members, Units("kind")) == Some(Text("kry_action_attestation"))
    && Get(att.members, Units("action_hash_version")) == Some(Int(1))
    && LinksOf(att).Some?
    && AcceptsLinks(env, att, LinksOf(att).value)
  }

  ghost predicate AcceptsLinks(env: Env, att: Value, links: seq<Value>)
    requires att.Object?
  {
    && Intact(env, ReceiptHash(env), links)
    && Get(att.members, Units("chain_tip")) == Some(Text(ChainAt(env, ReceiptHash(env), links, |links|)))
    && Get(att.members, Units("action_count")) == Some(Int(|links|))
    && FloorOk(env, att, links)
  }

  /** One round of the integrity loop: the link's id and the chain hash after it, or its fault. */
  method CheckLink(env: Env, receipt: Receipt, link: Value, prev: string, seenIds: set<Value>)
    returns (rid: Value, expChain: string, fault: Option<Fault>)
    ensures fault == LinkFault(env, receipt, link, prev, IdOf(link).Some? && IdOf(link).value in seenIds)
    ensures fault.None? ==> IdOf(link) == Some(rid) && expChain == env.hash(ChainText(receipt, prev, Fields(link)))
  {
    rid, expChain := Null, prev;
    if !link.Object? { return rid, expChain, Some(NotObject); }
    var id := Get(link.members, Units("receipt_id"));
    if id.None? || !id.value.String? { return rid, expChain, Some(IdNotString); }
    rid := id.value;
    if rid in seenIds { return rid, expChain, Some(DuplicateId); }
    var expReceipt := receipt(link.members);
    if Get(link.members, Units("receipt_hash")) != Some(Text(expReceipt)) {
      return rid, expChain, Some(ReceiptMismatch);
    }
    expChain := env.hash(prev + (":" + expReceipt));
    if Get(link.members, Units("chain_hash")) != Some(Text(expChain)) { return rid, expChain, Some(ChainMismatch); }
    var ts := Get(link.members, Units("ts"));
    fault := if ts.Some? && CanonF64(env, ts.value) == NO_DOUBLE then Some(BadTimestamp) else None;
  }

  /** `seenIds` holds the ids of the first `n` links, all of which have one. */
  ghost predicate IdsSeen(links: seq<Value>, n: nat, seenIds: set<Value>)
    requires n <= |links|
  {
    (forall j :: 0 <= j < n ==> IdOf(links[j]).Some? && IdOf(links[j]).value in seenIds) &&
    (forall id <- seenIds :: exists j :: 0 <= j < n && IdOf(links[j]) == Some(id))
  }

  lemma OneMoreId(links: seq<Value>, n: nat, seenIds: set<Value>, rid: Value)
    requires n < |links| && IdsSeen(links, n, seenIds) && IdOf(links[n]) == Some(rid)
    ensures IdsSeen(links, n + 1, seenIds + {rid})
  {
  }

  lemma SameFault(env: Env, receipt: Receipt, links: seq<Value>, n: nat, seenIds: set<Value>)
    requires n < |links| && IdsSeen(links, n, seenIds)
    ensures FaultAt(env, receipt, links, n) ==
            LinkFault(env, receipt, links[n], ChainAt(env, receipt, links, n),
                      IdOf(links[n]).Some? && IdOf(links[n]).value in seenIds)
  {
  }

  /** The integrity loop: the re-derived tip, or the first link at fault. */
  method CheckLinks(env: Env, receipt: Receipt, links: seq<Value>) returns (tip: string, fault: Option<(nat, Fault)>)
    ensures fault.None? ==> Intact(env, receipt, links) && tip == ChainAt(env, receipt, links, |links|)
    ensures fault.Some? ==> FirstFault(env, receipt, links, fault.value.0, fault.value.1)
  {
    var prev := GENESIS;
    var seenIds: set<Value> := {};
    for i := 0 to |links|
      invariant prev == ChainAt(env, receipt, links, i)
      invariant forall j :: 0 <= j < i ==> FaultAt(env, receipt, links, j).None?
      invariant IdsSeen(links, i, seenIds)
    {
      var rid, expChain, f := CheckLink(env, receipt, links[i], prev, seenIds);
      SameFault(env, receipt, links, i, seenIds);
      if f.Some? { return prev, Some((i, f.value)); }
      OneMoreId(links, i, seenIds, rid);
      seenIds, prev := seenIds + {rid}, expChain;
    }
    return prev, None;
  }

  /** Why the floor is refused. */
  ghost predicate FloorCause(env: Env, att: Value, links: seq<Value>, reason: Reason)
    requires att.Object?
  {
    var veracity, claimed := Get(att.members, Units("veracity")), ClaimedFloor(att);
    match reason
    case VeracityNotObject => veracity.Some? && !veracity.value.Object?
    case FloorNotNumber => claimed.Some? && (!IsNumber(claimed.value) || env.number(claimed.value).None?)
    case FloorMismatch =>
      claimed.Some? && IsNumber(claimed.value) && env.number(claimed.value).Some? &&
      Distance(env.number(claimed.value).value, DerivedFloor(links)) > 0.01
    case _ => false
  }

  /** The value exceeds the limit that is named. */
  predicate OverTheLimit(v: Value, e: LimitError) {
    if e.DigitLimit? then !IntegersFit(v) else JsonLimits.Depth(v) > 64
  }

  /** Why an attestation is refused: the first test that fails, in the source's order. */
  ghost predicate Cause(env: Env, att: Value, reason: Reason) {
    if !Limited(att) then reason.LimitExceeded? && OverTheLimit(att, reason.e)
    else if !att.Object? then reason == NotAnObject
    else if Get(att.members, Units("kind")) != Some(Text("kry_action_attestation")) then reason == WrongKind
    else if Get(att.members, Units("action_hash_version")) != Some(Int(1)) then reason == WrongVersion
    else if LinksOf(att).None? then reason == NoLinks
    else LinksCause(env, att, LinksOf(att).value, reason)
  }

  ghost predicate LinksCause(env: Env, att: Value, links: seq<Value>, reason: Reason)
    requires att.Object?
  {
    if !Intact(env, ReceiptHash(env), links) then
      reason.BadLink? && FirstFault(env, ReceiptHash(env), links, reason.index, reason.fault)
    else if Get(att.members, Units("chain_tip")) != Some(Text(ChainAt(env, ReceiptHash(env), links, |links|))) then
      reason == TipMismatch
    else if Get(att.members, Units("action_count")) != Some(Int(|links|)) then reason == CountMismatch
    else FloorCause(env, att, links, reason)
  }

  method CheckFloor(env: Env, att: Value, links: seq<Value>) returns (v: Verdict)
    requires att.Object?
    ensures v.Accepted? <==> FloorOk(env, att, links)
    ensures v.Rejected? ==> FloorCause(env, att, links, v.reason)
  {
    var veracity := Get(att.members, Units("veracity"));
    if veracity.Some? && !veracity.value.Object? { return Rejected(VeracityNotObject); }
    var claimed := ClaimedFloor(att);
    if claimed.Some? {
      if !IsNumber(claimed.value) || env.number(claimed.value).None? { return Rejected(FloorNotNumber); }
      if Distance(env.number(claimed.value).value, DerivedFloor(links)) > 0.01 { return Rejected(FloorMismatch); }
    }
    return Accepted;
  }

  /** `verify_action_attestation`, without its warnings. */
  method VerifyActionAttestation(env: Env, att: Value) returns (v: Verdict)
    ensures v.Accepted? <==> Accepts(env, att)
    ensures v.Rejected? ==> Cause(env, att, v.reason)
  {
    var e := CheckValueLimits(att);
    if e.Some? { return Rejected(LimitExceeded(e.value)); }
    if !att.Object? { return Rejected(NotAnObject); }
    if Get(att.members, Units("kind")) != Some(Text("kry_action_attestation")) { return Rejected(WrongKind); }
    if Get(att.members, Units("action_hash_version")) != Some(Int(1)) { return Rejected(WrongVersion); }
    var links := LinksOf(att);
    if links.None? { return Rejected(NoLinks); }
    var tip, fault := CheckLinks(env, ReceiptHash(env), links.value);
    if fault.Some? { return Rejected(BadLink(fault.value.0, fault.value.1)); }
    if Get(att.members, Units("chain_tip")) != Some(Text(tip)) { return Rejected(TipMismatch); }
    if Get(att.members, Units("action_count")) != Some(Int(|links.value|)) { return Rejected(CountMismatch); }
    v := CheckFloor(env, att, links.value);
  }

  // --------------------------------------------------------------- the anchor

  predicate HexHash(v: Value) {
    v.String? && |v.s| == 64 && forall i :: 0 <= i < 64 ==> 0x30 <= v.s[i] <= 0x39 || 0x61 <= v.s[i] <= 0x66
  }

  predicate HasChainHash(link: Value) {
    link.Object? && Get(link.members, Units("chain_hash")).Some?
  }

  predicate AllHaveChainHash(links: seq<Value>) {
    forall i :: 0 <= i < |links| ==> HasChainHash(links[i])
  }

  /** The tip that the links show after `n` of them. */
  function TipAt(links: seq<Value>, n: nat): Option<Value>
    requires n <= |links|
  {
    if n == 0 then Some(Text(GENESIS)) else Get(Fields(links[n - 1]), Units("chain_hash"))
  }

  function AnchorCount(anchor: Value): Option<Value> {
    if anchor.Object? then Get(anchor.members, Units("count")) else None
  }

  function AnchorTip(anchor: Value): Option<Value> {
    if anchor.Object? then Get(anchor.members, Units("chain_tip")) else None
  }

  predicate IsAnchor(anchor: Value) {
    && anchor.Object? && Get(anchor.members, Units("kind")) == Some(Text("kry_action_anchor"))
    && AnchorTip(anchor).Some? && HexHash(AnchorTip(anchor).value)
    && AnchorCount(anchor).Some? && AnchorCount(anchor).value.Int? && 0 <= AnchorCount(anchor).value.n
  }

  /** `verify_against_anchor`: the attestation's tip at the anchor's count is the published one. */
  predicate MatchesAnchor(att: Value, anchor: Value) {
    && Limited(att) && Limited(anchor) && IsAnchor(anchor)
    && LinksOf(att).Some? && AllHaveChainHash(LinksOf(att).value)
    && AnchorCount(anchor).value.n <= |LinksOf(att).value|
    && TipAt(LinksOf(att).value, AnchorCount(anchor).value.n) == AnchorTip(anchor)
  }

  datatype AnchorFault =
    | OverLimit(e: LimitError)
    | NotAnAnchor
    | TipNotHex
    | NoLinksList
    | LinkWithoutHash
    | BadCount
    | Dropped
    | Reminted

  /** Why an anchor is not met: the first test that fails, in the source's order. */
  ghost predicate AnchorCause(att: Value, anchor: Value, fault: AnchorFault) {
    if !Limited(att) then fault.OverLimit? && OverTheLimit(att, fault.e)
    else if !Limited(anchor) then fault.OverLimit? && OverTheLimit(anchor, fault.e)
    else if !anchor.Object? || Get(anchor.members, Units("kind")) != Some(Text("kry_action_anchor")) then
      fault == NotAnAnchor
    else if AnchorTip(anchor).None? || !HexHash(AnchorTip(anchor).value) then fault == TipNotHex
    else if LinksOf(att).None? then fault == NoLinksList
    else if !AllHaveChainHash(LinksOf(att).value) then fault == LinkWithoutHash
    else if !IsAnchor(anchor) then fault == BadCount
    else if |LinksOf(att).value| < AnchorCount(anchor).value.n then fault == Dropped
    else TipAt(LinksOf(att).value, AnchorCount(anchor).value.n) != AnchorTip(anchor) && fault == Reminted
  }

  /** `any(not isinstance(link, dict) or "chain_hash" not in link ...)`, negated. */
  method CheckLinkHashes(links: seq<Value>) returns (ok: bool)
    ensures ok <==> AllHaveChainHash(links)
  {
    for i := 0 to |links|
      invariant forall k :: 0 <= k < i ==> HasChainHash(links[k])
    {
      if !HasChainHash(links[i]) { return false; }
    }
    return true;
  }

  /** `verify_against_anchor`: `None` when the anchor is met. */
  method VerifyAgainstAnchor(att: Value, anchor: Value) returns (fault: Option<AnchorFault>)
    ensures fault.None? <==> MatchesAnchor(att, anchor)
    ensures fault.Some? ==> AnchorCause(att, anchor, fault.value)
  {
    var e := CheckValueLimits(att);
    if e.None? { e := CheckValueLimits(anchor); }
    if e.Some? { return Some(OverLimit(e.value)); }
    if !anchor.Object? || Get(anchor.members, Units("kind")) != Some(Text("kry_action_anchor")) {
      return Some(NotAnAnchor);
    }
    var count, tip := AnchorCount(anchor), AnchorTip(anchor);
    if tip.None? || !HexHash(tip.value) { return Some(TipNotHex); }
    var links := LinksOf(att);
    if links.None? { return Some(NoLinksList); }
    var hashed := CheckLinkHashes(links.value);
    if !hashed { return Some(LinkWithoutHash); }
    if count.None? || !count.value.Int? || count.value.n < 0 { return Some(BadCount); }
    var n := count.value.n;
    if n > |links.value| { return Some(Dropped); }
    var tipAt := if n == 0 then Some(Text(GENESIS)) else Get(links.value[n - 1].members, Units("chain_hash"));
    return if tipAt != tip then Some(Reminted) else None;
  }
}
