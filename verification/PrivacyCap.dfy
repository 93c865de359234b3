/** When the limit on reports is a cap, exactly; and that the bound on the overshoot is attained. */
module PrivacyCap {
  import opened Json
  import opened PrivacyScan
  import opened PrivacyVerdict

  /** The member is reported itself, whatever is below it. */
  predicate Noisy(cfg: Config, m: (Str, Value)) {
    Treat(cfg, m).Reported? || Treat(cfg, m) == Counter(false)
  }

  predicate Quiet(cfg: Config, members: seq<(Str, Value)>) {
    forall k :: 0 <= k < |members| ==> !Noisy(cfg, members[k])
  }

  // ----------------------------------------------------------------- the condition

  /** In no object that the traversal enters is a member with reports below it followed by a member that is reported
      itself. */
  predicate Capped(cfg: Config, v: Value, path: seq<PathStep>, depth: nat)
    decreases v, 1
  {
    depth <= MAX_DEPTH ==>
      match v
      case Object(members) => CappedMembers(cfg, members, path, depth)
      case Array(items) => CappedItems(cfg, items, path, depth, 0)
      case _ => true
  }

  predicate CappedMember(cfg: Config, m: (Str, Value), path: seq<PathStep>, depth: nat)
    decreases m, 2
  {
    !Treat(cfg, m).Counter? ==> Capped(cfg, m.1, path + [Key(m.0)], depth + 1)
  }

  predicate CappedMembers(cfg: Config, members: seq<(Str, Value)>, path: seq<PathStep>, depth: nat)
    decreases members, 0
  {
    members == [] ||
    (CappedMember(cfg, members[0], path, depth) &&
     (Below(cfg, members[0], path, depth) != [] ==> Quiet(cfg, members[1..])) &&
     CappedMembers(cfg, members[1..], path, depth))
  }

  predicate CappedItems(cfg: Config, items: seq<Value>, path: seq<PathStep>, depth: nat, idx: nat)
    decreases items, 0
  {
    items == [] ||
    (Capped(cfg, items[0], path + [Index(idx)], depth + 1) && CappedItems(cfg, items[1..], path, depth, idx + 1))
  }

  /** What the traversal reports below a member. */
  function Below(cfg: Config, m: (Str, Value), path: seq<PathStep>, depth: nat): seq<Error> {
    if Treat(cfg, m).Counter? then [] else All(cfg, m.1, path + [Key(m.0)], depth + 1)
  }

  // ------------------------------------------------------- enough: never above the limit

  /** Once the limit is reached, a dict's loop adds one report if a later member is reported itself, else none. */
  lemma {:induction false} FullLoop(cfg: Config, limit: nat, errors: seq<Error>, members: seq<(Str, Value)>,
                                    path: seq<PathStep>, depth: nat)
    requires |errors| >= limit
    ensures |VisitMembers(cfg, limit, errors, members, path, depth)| == |errors| + if Quiet(cfg, members) then 0 else 1
  {
    if members != [] {
      var own := Own(cfg, members[0], path);
      if own == [] {
        assert errors + own == errors;
        assert Visit(cfg, limit, errors, members[0].1, path + [Key(members[0].0)], depth + 1) == errors;
        FullLoop(cfg, limit, errors, members[1..], path, depth);
        assert Quiet(cfg, members) <==> Quiet(cfg, members[1..]);
      } else {
        assert Noisy(cfg, members[0]);
      }
    }
  }

  lemma {:induction false} VisitCapped(cfg: Config, limit: nat, errors: seq<Error>, v: Value, path: seq<PathStep>,
                                       depth: nat)
    requires |errors| < limit && Capped(cfg, v, path, depth)
    ensures |Visit(cfg, limit, errors, v, path, depth)| <= limit
    decreases v, 1
  {
    if depth <= MAX_DEPTH {
      match v
      case Object(members) => MembersCapped(cfg, limit, errors, members, path, depth);
      case Array(items) => ItemsCapped(cfg, limit, errors, items, path, depth, 0);
      case _ =>
    }
  }

  lemma {:induction false} ItemsCapped(cfg: Config, limit: nat, errors: seq<Error>, items: seq<Value>,
                                       path: seq<PathStep>, depth: nat, idx: nat)
    requires |errors| < limit && CappedItems(cfg, items, path, depth, idx)
    ensures |VisitItems(cfg, limit, errors, items, path, depth, idx)| <= limit
    decreases items, 0
  {
    if items != [] {
      VisitCapped(cfg, limit, errors, items[0], path + [Index(idx)], depth + 1);
      var after := Visit(cfg, limit, errors, items[0], path + [Index(idx)], depth + 1);
      if |after| < limit {
        ItemsCapped(cfg, limit, after, items[1..], path, depth, idx + 1);
      }
    }
  }

  lemma {:induction false} MemberCapped(cfg: Config, limit: nat, errors: seq<Error>, m: (Str, Value),
                                        path: seq<PathStep>, depth: nat)
    requires |errors| < limit && CappedMember(cfg, m, path, depth)
    ensures var (after, returned) := VisitMember(cfg, limit, errors, m, path, depth);
            |after| <= limit && (|after| == limit ==> returned || Below(cfg, m, path, depth) != [])
    decreases m, 2
  {
    var reported := errors + Own(cfg, m, path);
    if |reported| < limit && !Treat(cfg, m).Counter? {
      VisitCapped(cfg, limit, reported, m.1, path + [Key(m.0)], depth + 1);
      VisitMeets(cfg, limit, reported, m.1, path + [Key(m.0)], depth + 1);
    }
  }

  lemma {:induction false} MembersCapped(cfg: Config, limit: nat, errors: seq<Error>, members: seq<(Str, Value)>,
                                         path: seq<PathStep>, depth: nat)
    requires |errors| < limit && CappedMembers(cfg, members, path, depth)
    ensures |VisitMembers(cfg, limit, errors, members, path, depth)| <= limit
    decreases members, 0
  {
    if members != [] {
      var (after, returned) := VisitMember(cfg, limit, errors, members[0], path, depth);
      MemberCapped(cfg, limit, errors, members[0], path, depth);
      if !returned && |after| < limit {
        MembersCapped(cfg, limit, after, members[1..], path, depth);
      } else if !returned {
        FullLoop(cfg, limit, after, members[1..], path, depth);
      }
    }
  }

  // ------------------------------------------------- needed: some limit is exceeded

  lemma {:induction false} Overshoots(cfg: Config, errors: seq<Error>, v: Value, path: seq<PathStep>, depth: nat)
    returns (limit: nat)
    requires !Capped(cfg, v, path, depth)
    ensures |errors| < limit < |Visit(cfg, limit, errors, v, path, depth)|
    decreases v, 1
  {
    match v
    case Object(members) => limit := MembersOvershoot(cfg, errors, members, path, depth);
    case Array(items) => limit := ItemsOvershoot(cfg, errors, items, path, depth, 0);
  }

  /** Below the limit the scan is the full traversal. */
  lemma UnderLimit(cfg: Config, limit: nat, errors: seq<Error>, v: Value, path: seq<PathStep>, depth: nat)
    requires |errors| + |All(cfg, v, path, depth)| < limit
    ensures Visit(cfg, limit, errors, v, path, depth) == errors + All(cfg, v, path, depth)
  {
    VisitMeets(cfg, limit, errors, v, path, depth);
  }

  lemma {:induction false} ItemsOvershoot(cfg: Config, errors: seq<Error>, items: seq<Value>, path: seq<PathStep>,
                                          depth: nat, idx: nat) returns (limit: nat)
    requires !CappedItems(cfg, items, path, depth, idx)
    ensures |errors| < limit < |VisitItems(cfg, limit, errors, items, path, depth, idx)|
    decreases items, 0
  {
    var here := path + [Index(idx)];
    if !Capped(cfg, items[0], here, depth + 1) {
      limit := Overshoots(cfg, errors, items[0], here, depth + 1);
    } else {
      var after := errors + All(cfg, items[0], here, depth + 1);
      limit := ItemsOvershoot(cfg, after, items[1..], path, depth, idx + 1);
      UnderLimit(cfg, limit, errors, items[0], here, depth + 1);
    }
  }

  lemma {:induction false} MemberOvershoots(cfg: Config, errors: seq<Error>, m: (Str, Value), path: seq<PathStep>,
                                            depth: nat) returns (limit: nat)
    requires !CappedMember(cfg, m, path, depth)
    ensures |errors| < limit < |Visit(cfg, limit, errors, m.1, path + [Key(m.0)], depth + 1)|
    decreases m, 2
  {
    limit := Overshoots(cfg, errors, m.1, path + [Key(m.0)], depth + 1);
  }

  lemma {:induction false} MembersOvershoot(cfg: Config, errors: seq<Error>, members: seq<(Str, Value)>,
                                            path: seq<PathStep>, depth: nat) returns (limit: nat)
    requires !CappedMembers(cfg, members, path, depth)
    ensures |errors| < limit < |VisitMembers(cfg, limit, errors, members, path, depth)|
    decreases members, 0
  {
    var m, rest := members[0], members[1..];
    var here, reported := path + [Key(m.0)], errors + Own(cfg, m, path);
    var below := Below(cfg, m, path, depth);
    if !CappedMember(cfg, m, path, depth) {
      limit := MemberOvershoots(cfg, reported, m, path, depth);
      FullLoop(cfg, limit, Visit(cfg, limit, reported, m.1, here, depth + 1), rest, path, depth);
    } else if below != [] && !Quiet(cfg, rest) {
      limit := |reported| + |below|;
      VisitMeets(cfg, limit, reported, m.1, here, depth + 1);
      FullLoop(cfg, limit, Visit(cfg, limit, reported, m.1, here, depth + 1), rest, path, depth);
    } else {
      limit := MembersOvershoot(cfg, reported + below, rest, path, depth);
      if Treat(cfg, m).Counter? {
        assert reported + below == reported;
      } else {
        UnderLimit(cfg, limit, reported, m.1, here, depth + 1);
      }
    }
  }

  /** The limit is a cap, whatever it is set to, if and only if in no object that the traversal enters a member with
      reports below it is followed by a member that is reported itself. */
  lemma CapExactly(cfg: Config, v: Value)
    ensures (forall limit: nat :: limit > 0 ==> |Visit(cfg, limit, [], v, [], 0)| <= limit) <==> Capped(cfg, v, [], 0)
  {
    if Capped(cfg, v, [], 0) {
      forall limit: nat | limit > 0 ensures |Visit(cfg, limit, [], v, [], 0)| <= limit {
        VisitCapped(cfg, limit, [], v, [], 0);
      }
    } else {
      var limit := Overshoots(cfg, [], v, [], 0);
      assert limit > 0;
    }
  }

  // ------------------------------------------------------------ the bound is attained

  /** Objects within one another, each closed by a member that is reported; a private text innermost. */
  function Nest(a: Str, b: Str, text: Str, n: nat): Value {
    Object([(a, if n == 0 then String(text) else Nest(a, b, text, n - 1)), (b, Int(0))])
  }

  /** The keys and the text do what `Nest` needs: `a` is passed over, `b` is reported, the text is private. */
  ghost predicate Provokes(cfg: Config, a: Str, b: Str, text: Str) {
    && (forall v: Value :: v.Object? || v.String? ==> Treat(cfg, (a, v)) == Clean)
    && Treat(cfg, (b, Int(0))) == Reported(PrivateField) && cfg.privateText(text)
  }

  lemma {:induction false} NestObjects(a: Str, b: Str, text: Str, n: nat)
    ensures Objects(Nest(a, b, text, n)) == n + 1
  {
    var members, rest: seq<(Str, Value)> := Nest(a, b, text, n).members, [(b, Int(0))];
    assert members[1..] == rest && |rest[1..]| == 0;
    assert MemberObjects(rest[0]) == 0 && MembersObjects(rest[1..]) == 0;
    if n > 0 {
      NestObjects(a, b, text, n - 1);
    }
    assert MemberObjects(members[0]) == n && MembersObjects(rest) == 0;
  }

  /** The last report that fits is made innermost, and every enclosing object adds one. */
  lemma {:induction false} NestOvershoots(cfg: Config, limit: nat, errors: seq<Error>, a: Str, b: Str, text: Str,
                                          n: nat, path: seq<PathStep>, depth: nat)
    requires Provokes(cfg, a, b, text) && |errors| + 1 == limit && depth + n <= MAX_DEPTH
    ensures |Visit(cfg, limit, errors, Nest(a, b, text, n), path, depth)| == limit + n + 1
  {
    var members, rest: seq<(Str, Value)> := Nest(a, b, text, n).members, [(b, Int(0))];
    var inner, here := members[0].1, path + [Key(a)];
    assert errors + [] == errors && members[0] == (a, inner) && members[1..] == rest;
    if n > 0 {
      NestOvershoots(cfg, limit, errors, a, b, text, n - 1, here, depth + 1);
    }
    var after := Visit(cfg, limit, errors, inner, here, depth + 1);
    assert VisitMember(cfg, limit, errors, members[0], path, depth) == (after, false);
    assert Noisy(cfg, rest[0]);
    FullLoop(cfg, limit, after, rest, path, depth);
  }

  /** `k` private texts and then a nest. */
  function Padded(a: Str, b: Str, text: Str, k: nat, n: nat): seq<Value> {
    if k == 0 then [Nest(a, b, text, n)] else [String(text)] + Padded(a, b, text, k - 1, n)
  }

  lemma {:induction false} PaddedOvershoots(cfg: Config, limit: nat, errors: seq<Error>, a: Str, b: Str, text: Str,
                                            k: nat, n: nat, idx: nat)
    requires Provokes(cfg, a, b, text) && |errors| + k + 1 == limit && n < MAX_DEPTH
    ensures |VisitItems(cfg, limit, errors, Padded(a, b, text, k, n), [], 0, idx)| == limit + n + 1
    ensures ItemsObjects(Padded(a, b, text, k, n)) == n + 1
    decreases k
  {
    var items := Padded(a, b, text, k, n);
    var none: seq<PathStep> := [];
    NestObjects(a, b, text, n);
    if k == 0 {
      NestOvershoots(cfg, limit, errors, a, b, text, n, none + [Index(idx)], 1);
      assert items[1..] == [];
    } else {
      assert items[1..] == Padded(a, b, text, k - 1, n);
      PaddedOvershoots(cfg, limit, errors + [Error(PrivateText, none + [Index(idx)])], a, b, text, k - 1, n, idx + 1);
    }
  }

  /** For every limit and every depth of nesting within the depth limit some document exceeds the limit by one report
      for each enclosing object: the bound on the overshoot cannot be improved. */
  lemma OvershootAttained(cfg: Config, limit: nat, a: Str, b: Str, text: Str, n: nat)
    requires Provokes(cfg, a, b, text) && limit > 0 && n < MAX_DEPTH
    ensures var v := Array(Padded(a, b, text, limit - 1, n));
            Objects(v) == n + 1 && |Visit(cfg, limit, [], v, [], 0)| == limit + Objects(v)
  {
    PaddedOvershoots(cfg, limit, [], a, b, text, limit - 1, n, 0);
  }
}
