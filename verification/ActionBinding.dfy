/** What an accepted action attestation is bound to, up to a hash collision that can be exhibited. */
module ActionBinding {
  import opened Sequences
  import opened Options
  import opened Json
  import opened JsonInjective
  import opened ActionChain

  /** What ties two chains together other than equal payloads: at link `i` two different texts with the same
      hash, or (for chains of different lengths) a text whose hash is the genesis string. */
  datatype Break = NoBreak | ReceiptCollision(i: nat, j: nat) | ChainCollision(i: nat, j: nat) | GenesisHit(i: nat)

  predicate HexText(s: string) {
    |s| == 64 && forall i :: 0 <= i < 64 ==> '0' <= s[i] <= '9' || 'a' <= s[i] <= 'f'
  }

  /** `hexdigest()` of SHA-256 is always 64 lower-case hex digits. */
  ghost predicate HexDigests(env: Env) {
    forall x: string :: HexText(env.hash(x))
  }

  function ChainTextAt(env: Env, text: Members -> string, links: seq<Value>, i: nat): string
    requires i < |links|
  {
    ChainText(Hashed(env, text), ChainAt(env, Hashed(env, text), links, i), Fields(links[i]))
  }

  /** `b` names two different texts, hashed on behalf of `xs` and `ys`, with equal hashes (or a genesis hit). */
  ghost predicate Exhibits(env: Env, text: Members -> string, xs: seq<Value>, ys: seq<Value>, b: Break) {
    match b
    case NoBreak => false
    case ReceiptCollision(i, j) =>
      i < |xs| && j < |ys| && Collision(env, text(Fields(xs[i])), text(Fields(ys[j])))
    case ChainCollision(i, j) =>
      i < |xs| && j < |ys| && Collision(env, ChainTextAt(env, text, xs, i), ChainTextAt(env, text, ys, j))
    case GenesisHit(i) =>
      (i < |xs| && env.hash(ChainTextAt(env, text, xs, i)) == GENESIS) ||
      (i < |ys| && env.hash(ChainTextAt(env, text, ys, i)) == GENESIS)
  }

  /** Without a break `same` holds; any other answer exhibits one. */
  ghost predicate Binds(env: Env, text: Members -> string, xs: seq<Value>, ys: seq<Value>, b: Break, same: bool) {
    (b.NoBreak? ==> same) && (b.NoBreak? <==> !Exhibits(env, text, xs, ys, b))
  }

  predicate Collision(env: Env, x: string, y: string) {
    x != y && env.hash(x) == env.hash(y)
  }

  /** The chain starts at 64 zeros, and each link's hash is over the previous one, a colon, and the hash of the link's
      text. */
  lemma ChainIs(env: Env, links: seq<Value>, n: nat)
    requires n < |links|
    ensures var start := ChainAt(env, ReceiptHash(env), links, 0);
            |start| == 64 && forall i :: 0 <= i < 64 ==> start[i] == '0'
    ensures ChainAt(env, ReceiptHash(env), links, n + 1) ==
            env.hash(ChainAt(env, ReceiptHash(env), links, n) + ":" + env.hash(ReceiptText(env, Fields(links[n]))))
  {
    var prev := ChainAt(env, ReceiptHash(env), links, n);
    Assoc(prev, ":", env.hash(ReceiptText(env, Fields(links[n]))));
  }

  // -------------------------------------------------------------- one link back

  lemma {:induction false} GetValid(members: Members, key: Str)
    requires ValidMembers(members) && Get(members, key).Some?
    ensures Valid(Get(members, key).value)
  {
    if members[0].0 != key {
      GetValid(members[1..], key);
    }
  }

  ghost predicate ValidLinks(links: seq<Value>) {
    forall i :: 0 <= i < |links| ==> Valid(links[i])
  }

  /** Equal chain hashes after link `i` and link `j` come from equal texts on top of equal chain hashes. */
  lemma OneLinkBack(env: Env, text: Members -> string, xs: seq<Value>, i: nat, ys: seq<Value>, j: nat)
    returns (b: Break)
    requires HexDigests(env) && i < |xs| && j < |ys|
    requires ChainAt(env, Hashed(env, text), xs, i + 1) == ChainAt(env, Hashed(env, text), ys, j + 1)
    ensures !b.GenesisHit? && Binds(env, text, xs, ys, b, text(Fields(xs[i])) == text(Fields(ys[j])) &&
              ChainAt(env, Hashed(env, text), xs, i) == ChainAt(env, Hashed(env, text), ys, j))
  {
    var p, q := ChainAt(env, Hashed(env, text), xs, i), ChainAt(env, Hashed(env, text), ys, j);
    var r, t := text(Fields(xs[i])), text(Fields(ys[j]));
    if ChainTextAt(env, text, xs, i) != ChainTextAt(env, text, ys, j) { return ChainCollision(i, j); }
    Split(p, ":" + env.hash(r), q, ":" + env.hash(t));
    Split(":", env.hash(r), ":", env.hash(t));
    if r != t { return ReceiptCollision(i, j); }
    return NoBreak;
  }

  ghost predicate SameTexts(text: Members -> string, xs: seq<Value>, ys: seq<Value>, n: nat)
    requires n <= |xs| && n <= |ys|
  {
    forall k :: 0 <= k < n ==> text(Fields(xs[k])) == text(Fields(ys[k]))
  }

  /** One more link in front of bound histories. */
  lemma OneMoreText(env: Env, text: Members -> string, xs: seq<Value>, n: nat, ys: seq<Value>, m: nat, b: Break)
    requires n < |xs| && m < |ys| && text(Fields(xs[n])) == text(Fields(ys[m]))
    requires Binds(env, text, xs, ys, b, n == m && SameTexts(text, xs, ys, n))
    ensures Binds(env, text, xs, ys, b, n + 1 == m + 1 && SameTexts(text, xs, ys, n + 1))
  {
    if b.NoBreak? {
      assert SameTexts(text, xs, ys, n + 1);
    }
  }

  /** At the start of a chain there is nothing to bind, unless the other one hits the genesis string. */
  lemma AtGenesis(env: Env, text: Members -> string, xs: seq<Value>, n: nat, ys: seq<Value>, m: nat)
    returns (b: Break)
    requires n <= |xs| && m <= |ys| && (n == 0 || m == 0)
    requires ChainAt(env, Hashed(env, text), xs, n) == ChainAt(env, Hashed(env, text), ys, m)
    ensures Binds(env, text, xs, ys, b, n == m && SameTexts(text, xs, ys, n)) && (n == m ==> !b.GenesisHit?)
  {
    b := if n == m then NoBreak else GenesisHit(n + m - 1);
  }

  /** Equal chain hashes bind the whole history, even when the lengths are not given. */
  lemma {:induction false} HistoryBound(env: Env, text: Members -> string, xs: seq<Value>, n: nat, ys: seq<Value>,
                                        m: nat)
    returns (b: Break)
    requires HexDigests(env) && n <= |xs| && m <= |ys|
    requires ChainAt(env, Hashed(env, text), xs, n) == ChainAt(env, Hashed(env, text), ys, m)
    ensures Binds(env, text, xs, ys, b, n == m && SameTexts(text, xs, ys, n))
    ensures n == m ==> !b.GenesisHit?
  {
    if n == 0 || m == 0 {
      b := AtGenesis(env, text, xs, n, ys, m);
    } else {
      b := OneLinkBack(env, text, xs, n - 1, ys, m - 1);
      if b.NoBreak? {
        b := HistoryBound(env, text, xs, n - 1, ys, m - 1);
        OneMoreText(env, text, xs, n - 1, ys, m - 1, b);
      }
    }
  }

  // ------------------------------------------------------------- what a link records

  /** A field as the link gives it, or its default. */
  function Recorded(link: Members, key: string, default: Value): Value {
    if Get(link, Units(key)).Some? then Get(link, Units(key)).value else default
  }

  /** The double of `ts` as text, when that is a number. */
  function TimeOf(env: Env, link: Members): Value {
    var ts := Recorded(link, "ts", Null);
    Text(if ts.Int? || ts.Float? then env.f64(ts) else "ffffffffffffffff")
  }

  /** Two links record the same action: every field but the id and the hashes, the time by its double. */
  ghost predicate SameRecord(env: Env, x: Members, y: Members) {
    && Recorded(x, "tool", Text("")) == Recorded(y, "tool", Text(""))
    && Recorded(x, "args_commit", Text("")) == Recorded(y, "args_commit", Text(""))
    && Recorded(x, "result_commit", Null) == Recorded(y, "result_commit", Null)
    && Recorded(x, "status", Text("")) == Recorded(y, "status", Text(""))
    && Recorded(x, "agent_id", Text("")) == Recorded(y, "agent_id", Text(""))
    && Recorded(x, "evidence_tier", Text("")) == Recorded(y, "evidence_tier", Text(""))
    && Recorded(x, "server_evidence_commit", Null) == Recorded(y, "server_evidence_commit", Null)
    && TimeOf(env, x) == TimeOf(env, y)
  }

  /** The values of a payload, in the order of its keys. */
  function Values(env: Env, link: Members): seq<Value> {
    [Int(1), Recorded(link, "agent_id", Text("")), Recorded(link, "args_commit", Text("")),
     Recorded(link, "evidence_tier", Text("")), Recorded(link, "result_commit", Null),
     Recorded(link, "server_evidence_commit", Null), Recorded(link, "status", Text("")),
     Recorded(link, "tool", Text("")), TimeOf(env, link)]
  }

  const KEYS := ["action_hash_version", "agent_id", "args_commit", "evidence_tier", "result_commit",
                 "server_evidence_commit", "status", "tool", "ts"]

  /** What is hashed is an object with these nine keys, in this order, and the recorded values under them. */
  lemma PayloadIs(env: Env, link: Members)
    ensures var p := Payload(env, link).members;
            |p| == 9 && forall i :: 0 <= i < 9 ==> p[i].0 == Units(KEYS[i]) && p[i].1 == Values(env, link)[i]
  {
  }

  lemma RecordedValid(link: Members, key: string, default: Value)
    requires ValidMembers(link) && Valid(default)
    ensures Valid(Recorded(link, key, default))
  {
    if Get(link, Units(key)).Some? { GetValid(link, Units(key)); }
  }

  lemma {:induction false} MembersValid(members: Members)
    requires forall i :: 0 <= i < |members| ==> Valid(members[i].1)
    ensures ValidMembers(members)
  {
    if members != [] {
      MembersValid(members[1..]);
    }
  }

  lemma ValuesValid(env: Env, link: Members)
    requires ValidMembers(link)
    ensures forall i :: 0 <= i < 9 ==> Valid(Values(env, link)[i])
  {
    forall key, default | Valid(default) ensures Valid(Recorded(link, key, default)) {
      RecordedValid(link, key, default);
    }
  }

  lemma PayloadValid(env: Env, link: Members)
    requires ValidMembers(link)
    ensures Valid(Payload(env, link))
  {
    ValuesValid(env, link);
    PayloadIs(env, link);
    MembersValid(Payload(env, link).members);
  }

  lemma PayloadsFromTexts(env: Env, x: Value, y: Value)
    requires Valid(x) && Valid(y) && ReceiptText(env, Fields(x)) == ReceiptText(env, Fields(y))
    ensures Payload(env, Fields(x)) == Payload(env, Fields(y))
  {
    PayloadValid(env, Fields(x));
    PayloadValid(env, Fields(y));
    CanonDetermines(Payload(env, Fields(x)), Payload(env, Fields(y)));
  }

  /** Payloads are equal exactly when the links record the same action, field by field. */
  lemma PayloadFixesRecord(env: Env, x: Members, y: Members)
    ensures Payload(env, x) == Payload(env, y) <==> SameRecord(env, x, y)
  {
    var p, q := Payload(env, x).members, Payload(env, y).members;
    PayloadIs(env, x);
    PayloadIs(env, y);
    SameValues(env, x, y);
    if Values(env, x) == Values(env, y) {
      assert forall i :: 0 <= i < 9 ==> p[i] == (p[i].0, p[i].1) && q[i] == (q[i].0, q[i].1);
      assert p == q;
    }
  }

  lemma SameValues(env: Env, x: Members, y: Members)
    ensures Values(env, x) == Values(env, y) <==> SameRecord(env, x, y)
  {
    var v, w := Values(env, x), Values(env, y);
    assert v == w ==> v[1] == w[1] && v[2] == w[2] && v[3] == w[3] && v[4] == w[4] && v[5] == w[5] && v[6] == w[6] &&
                      v[7] == w[7] && v[8] == w[8];
  }

  /** The first `n` links of both lists record the same actions in the same order. */
  ghost predicate SameRecords(env: Env, xs: seq<Value>, ys: seq<Value>, n: nat)
    requires n <= |xs| && n <= |ys|
  {
    forall k :: 0 <= k < n ==> SameRecord(env, Fields(xs[k]), Fields(ys[k]))
  }

  /** Two links that the loop passes, with the same receipt hash, record the same action or collide: an edit of any
      recorded field that leaves the hash alone is refused. */
  lemma EditShows(env: Env, x: Value, y: Value, p: string, q: string)
    requires Valid(x) && Valid(y)
    requires LinkFault(env, ReceiptHash(env), x, p, false).None? && LinkFault(env, ReceiptHash(env), y, q, false).None?
    requires HexDigests(env) && Get(Fields(x), Units("receipt_hash")) == Get(Fields(y), Units("receipt_hash"))
    ensures SameRecord(env, Fields(x), Fields(y)) ||
            Collision(env, ReceiptText(env, Fields(x)), ReceiptText(env, Fields(y)))
  {
    var t, u := ReceiptText(env, Fields(x)), ReceiptText(env, Fields(y));
    HexUnits(env.hash(t), env.hash(u));
    if t == u {
      PayloadsFromTexts(env, x, y);
      PayloadFixesRecord(env, Fields(x), Fields(y));
    }
  }

  lemma HexUnits(s: string, t: string)
    requires HexText(s) && HexText(t) && Units(s) == Units(t)
    ensures s == t
  {
    assert forall i :: 0 <= i < 64 ==> Units(s)[i] == s[i] as int && Units(t)[i] == t[i] as int;
  }

  /** Equal chain hashes mean equal records, up to a break that is exhibited. */
  lemma RecordsBound(env: Env, xs: seq<Value>, n: nat, ys: seq<Value>, m: nat) returns (b: Break)
    requires HexDigests(env) && ValidLinks(xs) && ValidLinks(ys) && n <= |xs| && m <= |ys|
    requires Text(ChainAt(env, ReceiptHash(env), xs, n)) == Text(ChainAt(env, ReceiptHash(env), ys, m))
    ensures Binds(env, ReceiptTexts(env), xs, ys, b, n == m && SameRecords(env, xs, ys, n))
    ensures n == m ==> !b.GenesisHit?
  {
    b := HistoryBound(env, ReceiptTexts(env), xs, n, ys, m);
    if b.NoBreak? {
      forall k | 0 <= k < n ensures SameRecord(env, Fields(xs[k]), Fields(ys[k])) {
        assert ReceiptTexts(env)(Fields(xs[k])) == ReceiptTexts(env)(Fields(ys[k]));
        PayloadsFromTexts(env, xs[k], ys[k]);
        PayloadFixesRecord(env, Fields(xs[k]), Fields(ys[k]));
      }
    }
  }

  // ---------------------------------------------------------------- attestations

  lemma {:induction false} ItemsValid(items: seq<Value>)
    requires ValidItems(items)
    ensures ValidLinks(items)
  {
    if items != [] {
      ItemsValid(items[1..]);
    }
  }

  lemma LinksValid(att: Value)
    requires Valid(att) && LinksOf(att).Some?
    ensures ValidLinks(LinksOf(att).value)
  {
    GetValid(att.members, Units("links"));
    ItemsValid(LinksOf(att).value);
  }

  /** Two accepted attestations with the same tip record the same actions in the same order: an edit, a reorder,
      an insertion or a drop of a bound field takes a collision (or, when the counts differ, a preimage of the
      genesis string), and the texts involved are exhibited. */
  lemma TipBindsHistory(env: Env, a: Value, c: Value) returns (b: Break)
    requires HexDigests(env) && Valid(a) && Valid(c) && Accepts(env, a) && Accepts(env, c)
    requires Get(a.members, Units("chain_tip")) == Get(c.members, Units("chain_tip"))
    ensures var xs, ys := LinksOf(a).value, LinksOf(c).value;
            Binds(env, ReceiptTexts(env), xs, ys, b, |xs| == |ys| && SameRecords(env, xs, ys, |xs|))
    ensures Get(a.members, Units("action_count")) == Get(c.members, Units("action_count")) ==> !b.GenesisHit?
  {
    var xs, ys := LinksOf(a).value, LinksOf(c).value;
    LinksValid(a);
    LinksValid(c);
    b := RecordsBound(env, xs, |xs|, ys, |ys|);
  }

  // --------------------------------------------------------------------- anchors

  lemma TipIsChain(env: Env, links: seq<Value>, n: nat)
    requires Intact(env, ReceiptHash(env), links) && n <= |links|
    ensures TipAt(links, n) == Some(Text(ChainAt(env, ReceiptHash(env), links, n)))
  {
    if n > 0 {
      assert FaultAt(env, ReceiptHash(env), links, n - 1).None?;
    }
  }

  /** Accepted attestations that match the same anchor agree on everything it commits to. */
  lemma AnchorBindsPrefix(env: Env, a: Value, c: Value, anchor: Value) returns (b: Break)
    requires HexDigests(env) && Valid(a) && Valid(c) && Accepts(env, a) && Accepts(env, c)
    requires MatchesAnchor(a, anchor) && MatchesAnchor(c, anchor)
    ensures var xs, ys := LinksOf(a).value, LinksOf(c).value;
            !b.GenesisHit? && Binds(env, ReceiptTexts(env), xs, ys, b,
                                    SameRecords(env, xs, ys, AnchorCount(anchor).value.n))
  {
    var xs, ys, n := LinksOf(a).value, LinksOf(c).value, AnchorCount(anchor).value.n;
    LinksValid(a);
    LinksValid(c);
    TipIsChain(env, xs, n);
    TipIsChain(env, ys, n);
    b := RecordsBound(env, xs, n, ys, n);
  }

  /** An anchor that publishes the count and tip of an accepted attestation. */
  predicate PublishedFor(anchor: Value, att: Value) {
    && att.Object? && anchor.Object? && Get(anchor.members, Units("kind")) == Some(Text("kry_action_anchor"))
    && Get(anchor.members, Units("count")) == Get(att.members, Units("action_count"))
    && Get(anchor.members, Units("chain_tip")) == Get(att.members, Units("chain_tip"))
  }

  /** After an anchor was published for `a`, whatever is accepted and matches it extends the log of `a`: a dropped,
      edited or re-minted action shows, or a collision is exhibited. */
  lemma AppendOnly(env: Env, a: Value, anchor: Value, later: Value) returns (b: Break)
    requires HexDigests(env) && Valid(a) && Valid(later) && Accepts(env, a) && Accepts(env, later)
    requires PublishedFor(anchor, a) && MatchesAnchor(later, anchor)
    ensures var xs, ys := LinksOf(a).value, LinksOf(later).value;
            !b.GenesisHit? && Binds(env, ReceiptTexts(env), xs, ys, b, |xs| <= |ys| && SameRecords(env, xs, ys, |xs|))
  {
    var xs, ys, n := LinksOf(a).value, LinksOf(later).value, AnchorCount(anchor).value.n;
    LinksValid(a);
    LinksValid(later);
    TipIsChain(env, ys, n);
    b := RecordsBound(env, xs, n, ys, n);
  }

  lemma IntactHasHashes(env: Env, links: seq<Value>)
    requires Intact(env, ReceiptHash(env), links)
    ensures AllHaveChainHash(links)
  {
    forall i | 0 <= i < |links| ensures HasChainHash(links[i]) {
      assert FaultAt(env, ReceiptHash(env), links, i).None?;
    }
  }

  lemma TextIsHex(t: string)
    requires HexText(t)
    ensures HexHash(Text(t))
  {
  }

  /** An anchor that is published for an accepted attestation is matched by it. */
  lemma OwnAnchorMatches(env: Env, a: Value, anchor: Value)
    requires HexDigests(env) && Accepts(env, a) && PublishedFor(anchor, a) && Limited(anchor)
    ensures MatchesAnchor(a, anchor)
  {
    var links := LinksOf(a).value;
    var tip := ChainAt(env, ReceiptHash(env), links, |links|);
    TipIsChain(env, links, |links|);
    IntactHasHashes(env, links);
    TextIsHex(tip);
  }

  /** An anchor's tip is the text of 64 lower-case hex digits. */
  lemma TipIsHex(v: Value)
    ensures HexHash(v) <==> exists t :: HexText(t) && v == Text(t)
  {
    if HexHash(v) {
      var t := seq(64, i requires 0 <= i < 64 => v.s[i] as char);
      assert HexText(t) && v.s == Units(t);
    }
  }

  /** Appending links keeps every anchor that matched. */
  lemma AppendKeepsAnchors(att: Value, longer: Value, anchor: Value, extra: seq<Value>)
    requires MatchesAnchor(att, anchor) && Limited(longer) && AllHaveChainHash(extra)
    requires LinksOf(longer) == Some(LinksOf(att).value + extra)
    ensures MatchesAnchor(longer, anchor)
  {
  }
}
