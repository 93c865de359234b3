/** What the privacy scan reports, exactly: the faults at the places of the document that it enters. */
module PrivacyExact {
  import opened Options
  import opened Json
  import opened PrivacyScan
  import opened PrivacyVerdict

  // ---------------------------------------------------------------------- the rules

  /** Token counters: the documented names only, with natural numbers; prompt counters may be null. */
  predicate ProperCounters(cfg: Config, name: string, item: Value)
    requires name in cfg.counters
  {
    item.Object? && forall i :: 0 <= i < |item.members| ==>
      var (key, count) := item.members[i];
      key in cfg.counters[name] &&
      match count
      case Int(n) => n >= 0
      case Null => name == "prompt_tokens_details"
      case _ => false
  }

  predicate PrivateKey(cfg: Config, name: string) {
    name !in cfg.counters && name !in cfg.allowedTokenKeys && cfg.privateLabel(name)
  }

  /** A field with documented values has another one; only with an allow-list, and null is always fine. */
  predicate BadPrice(cfg: Config, name: string, item: Value) {
    && cfg.allowedKeys.Some? && name in cfg.priceValues && !item.Null?
    && (item.String? ==> item.s !in cfg.priceValues[name])
  }

  /** A field that is not documented can hold text. */
  predicate Stray(cfg: Config, name: string, item: Value) {
    && cfg.allowedKeys.Some? && name !in cfg.allowedKeys.value + cfg.allowedTokenKeys
    && (item.String? || item.Array? || item.Object?)
  }

  /** What is wrong with a member by itself. */
  predicate MemberFault(cfg: Config, k: Str, item: Value, kind: Kind) {
    var name := cfg.keyLabel(k);
    match kind
    case BadCounter => name in cfg.counters && !ProperCounters(cfg, name, item)
    case PrivateField => PrivateKey(cfg, name)
    case UndocumentedValue => name !in cfg.counters && !PrivateKey(cfg, name) && BadPrice(cfg, name, item)
    case UnrecognizedField =>
      name !in cfg.counters && !PrivateKey(cfg, name) && !BadPrice(cfg, name, item) && Stray(cfg, name, item)
    case _ => false
  }

  // --------------------------------------------------------------------- the places

  /** One step into a document; token counters are not entered. */
  ghost predicate Child(cfg: Config, v: Value, step: PathStep, w: Value) {
    match step
    case Key(k) => v.Object? && cfg.keyLabel(k) !in cfg.counters && (k, w) in v.members
    case Index(i) => v.Array? && i < |v.items| && v.items[i] == w
  }

  /** The path leads from `v` to `w`. */
  ghost predicate Leads(cfg: Config, v: Value, path: seq<PathStep>, w: Value) {
    if path == [] then v == w
    else exists u :: Child(cfg, v, path[0], u) && Leads(cfg, u, path[1..], w)
  }

  ghost predicate TextAt(cfg: Config, v: Value, path: seq<PathStep>) {
    exists s :: Leads(cfg, v, path, String(s)) && cfg.privateText(s)
  }

  ghost predicate MemberAt(cfg: Config, v: Value, kind: Kind, path: seq<PathStep>, k: Str) {
    exists members, item ::
      Leads(cfg, v, path, Object(members)) && (k, item) in members && MemberFault(cfg, k, item, kind)
  }

  /** A fault below `v` that is at most `room` levels down: a private text, or a member of an object. */
  ghost predicate Faulty(cfg: Config, v: Value, kind: Kind, path: seq<PathStep>, room: int) {
    || (kind == PrivateText && |path| <= room && TextAt(cfg, v, path))
    || (path != [] && |path| - 1 <= room && path[|path| - 1].Key? &&
        MemberAt(cfg, v, kind, path[..|path| - 1], path[|path| - 1].k))
  }

  /** Some place lies just below the last level that is entered. */
  ghost predicate Deeper(cfg: Config, v: Value, room: int) {
    exists path, w :: |path| == room + 1 && Leads(cfg, v, path, w)
  }

  ghost predicate Reported(cfg: Config, v: Value, at: seq<PathStep>, room: int, e: Error) {
    if e.kind == TooDeep then e.path == [] && Deeper(cfg, v, room)
    else at <= e.path && Faulty(cfg, v, e.kind, e.path[|at|..], room)
  }

  // --------------------------------------------------------------- one level at a time

  /** Faults of the place itself. */
  ghost predicate Here(cfg: Config, v: Value, at: seq<PathStep>, e: Error) {
    || (v.String? && cfg.privateText(v.s) && e == Error(PrivateText, at))
    || (v.Object? && exists m <- v.members :: e.path == at + [Key(m.0)] && MemberFault(cfg, m.0, m.1, e.kind))
  }

  ghost predicate Below(cfg: Config, v: Value, at: seq<PathStep>, room: int, e: Error) {
    exists step, u :: Child(cfg, v, step, u) && Reported(cfg, u, at + [step], room - 1, e)
  }

  lemma LeadsStep(cfg: Config, v: Value, step: PathStep, u: Value, path: seq<PathStep>, w: Value)
    requires Child(cfg, v, step, u) && Leads(cfg, u, path, w)
    ensures Leads(cfg, v, [step] + path, w)
  {
    assert ([step] + path)[1..] == path;
  }

  lemma DeeperUnfolds(cfg: Config, v: Value, room: nat)
    ensures Deeper(cfg, v, room) <==> exists step, u :: Child(cfg, v, step, u) && Deeper(cfg, u, room - 1)
  {
    if Deeper(cfg, v, room) {
      var path, w :| |path| == room + 1 && Leads(cfg, v, path, w);
      var u :| Child(cfg, v, path[0], u) && Leads(cfg, u, path[1..], w);
      assert Deeper(cfg, u, room - 1);
    }
    if step, u :| Child(cfg, v, step, u) && Deeper(cfg, u, room - 1) {
      var path, w :| |path| == room && Leads(cfg, u, path, w);
      LeadsStep(cfg, v, step, u, path, w);
    }
  }

  /** A fault further down is a fault of the child that the path goes through. */
  lemma FaultyStep(cfg: Config, v: Value, kind: Kind, step: PathStep, u: Value, path: seq<PathStep>, room: int)
    requires Child(cfg, v, step, u) && Faulty(cfg, u, kind, path, room - 1)
    ensures Faulty(cfg, v, kind, [step] + path, room)
  {
    var longer := [step] + path;
    if kind == PrivateText && |path| <= room - 1 && TextAt(cfg, u, path) {
      var s :| Leads(cfg, u, path, String(s)) && cfg.privateText(s);
      LeadsStep(cfg, v, step, u, path, String(s));
    } else {
      var n := |path| - 1;
      var members, item :| Leads(cfg, u, path[..n], Object(members)) && (path[n].k, item) in members &&
                           MemberFault(cfg, path[n].k, item, kind);
      LeadsStep(cfg, v, step, u, path[..n], Object(members));
      assert longer[..n + 1] == [step] + path[..n];
    }
  }

  lemma FaultyThrough(cfg: Config, v: Value, kind: Kind, path: seq<PathStep>, room: int)
    requires Faulty(cfg, v, kind, path, room) && path != []
    requires |path| == 1 ==> !path[0].Key? || !MemberAt(cfg, v, kind, [], path[0].k)
    ensures exists u :: Child(cfg, v, path[0], u) && Faulty(cfg, u, kind, path[1..], room - 1)
  {
    var n := |path| - 1;
    if kind == PrivateText && |path| <= room && TextAt(cfg, v, path) {
      var s :| Leads(cfg, v, path, String(s)) && cfg.privateText(s);
      var u :| Child(cfg, v, path[0], u) && Leads(cfg, u, path[1..], String(s));
      assert TextAt(cfg, u, path[1..]);
    } else {
      var members, item :| Leads(cfg, v, path[..n], Object(members)) && (path[n].k, item) in members &&
                           MemberFault(cfg, path[n].k, item, kind);
      var u :| Child(cfg, v, path[0], u) && Leads(cfg, u, path[..n][1..], Object(members));
      assert path[..n][1..] == path[1..][..n - 1];
      assert MemberAt(cfg, u, kind, path[1..][..n - 1], path[n].k);
    }
  }

  lemma ReportedUnfolds(cfg: Config, v: Value, at: seq<PathStep>, room: nat, e: Error)
    ensures Reported(cfg, v, at, room, e) <==> Here(cfg, v, at, e) || Below(cfg, v, at, room, e)
  {
    if e.kind == TooDeep {
      DeeperUnfolds(cfg, v, room);
    } else {
      if Reported(cfg, v, at, room, e) {
        Unfolds(cfg, v, at, room, e);
      }
      if Here(cfg, v, at, e) {
        HereIsReported(cfg, v, at, room, e);
      }
      if Below(cfg, v, at, room, e) {
        BelowIsReported(cfg, v, at, room, e);
      }
    }
  }

  lemma Unfolds(cfg: Config, v: Value, at: seq<PathStep>, room: nat, e: Error)
    requires e.kind != TooDeep && Reported(cfg, v, at, room, e)
    ensures Here(cfg, v, at, e) || Below(cfg, v, at, room, e)
  {
    var path := e.path[|at|..];
    assert e.path == at + path;
    if path == [] {
      var s :| Leads(cfg, v, path, String(s)) && cfg.privateText(s);
    } else if |path| == 1 && path[0].Key? && MemberAt(cfg, v, e.kind, [], path[0].k) {
      var members, item :| Leads(cfg, v, [], Object(members)) && (path[0].k, item) in members &&
                           MemberFault(cfg, path[0].k, item, e.kind);
      assert path == [Key(path[0].k)];
    } else {
      FaultyThrough(cfg, v, e.kind, path, room);
      var u :| Child(cfg, v, path[0], u) && Faulty(cfg, u, e.kind, path[1..], room - 1);
      assert path[1..] == e.path[|at + [path[0]]|..];
      assert Reported(cfg, u, at + [path[0]], room - 1, e);
    }
  }

  lemma BelowIsReported(cfg: Config, v: Value, at: seq<PathStep>, room: nat, e: Error)
    requires e.kind != TooDeep && Below(cfg, v, at, room, e)
    ensures Reported(cfg, v, at, room, e)
  {
    var step, u :| Child(cfg, v, step, u) && Reported(cfg, u, at + [step], room - 1, e);
    FaultyStep(cfg, v, e.kind, step, u, e.path[|at| + 1..], room);
    assert e.path[|at|..] == [step] + e.path[|at| + 1..];
  }

  lemma HereIsReported(cfg: Config, v: Value, at: seq<PathStep>, room: nat, e: Error)
    requires e.kind != TooDeep && Here(cfg, v, at, e)
    ensures Reported(cfg, v, at, room, e)
  {
    var path := e.path[|at|..];
    if v.String? {
      assert Leads(cfg, v, path, String(v.s));
    } else {
      var m :| m in v.members && e.path == at + [Key(m.0)] && MemberFault(cfg, m.0, m.1, e.kind);
      assert path == [Key(m.0)] && path[..0] == [];
      assert Leads(cfg, v, path[..0], Object(v.members)) && (m.0, m.1) == m;
    }
  }

  // -------------------------------------------------------------------- the traversal

  lemma OwnExactly(cfg: Config, m: (Str, Value), at: seq<PathStep>, e: Error)
    ensures e in Own(cfg, m, at) <==> e.path == at + [Key(m.0)] && MemberFault(cfg, m.0, m.1, e.kind)
    ensures Treat(cfg, m).Counter? <==> cfg.keyLabel(m.0) in cfg.counters
  {
    var name := cfg.keyLabel(m.0);
    if name in cfg.counters {
      assert CounterObject(cfg, name, m.1) <==> ProperCounters(cfg, name, m.1);
    }
  }

  ghost predicate InMember(cfg: Config, members: seq<(Str, Value)>, at: seq<PathStep>, depth: nat, e: Error,
                           m: (Str, Value)) {
    m in members && e in AllMember(cfg, m, at, depth)
  }

  lemma {:induction false} MembersUnion(cfg: Config, members: seq<(Str, Value)>, at: seq<PathStep>, depth: nat,
                                        e: Error)
    ensures e in AllMembers(cfg, members, at, depth) <==> exists m :: InMember(cfg, members, at, depth, e, m)
  {
    if members != [] {
      var first, rest := AllMember(cfg, members[0], at, depth), members[1..];
      MembersUnion(cfg, rest, at, depth, e);
      assert AllMembers(cfg, members, at, depth) == first + AllMembers(cfg, rest, at, depth);
      if e in first {
        assert InMember(cfg, members, at, depth, e, members[0]);
      }
      if m :| InMember(cfg, rest, at, depth, e, m) {
        assert InMember(cfg, members, at, depth, e, m);
      }
      if m :| InMember(cfg, members, at, depth, e, m) {
        assert m == members[0] || InMember(cfg, rest, at, depth, e, m);
      }
    }
  }

  /** The item with index `j` in the document reports `e`; `items` start at index `idx`. */
  ghost predicate InItem(cfg: Config, items: seq<Value>, at: seq<PathStep>, depth: nat, idx: nat, e: Error, j: int) {
    idx <= j < idx + |items| && e in All(cfg, items[j - idx], at + [Index(j)], depth + 1)
  }

  lemma {:induction false} ItemsUnion(cfg: Config, items: seq<Value>, at: seq<PathStep>, depth: nat, idx: nat, e: Error)
    ensures e in AllItems(cfg, items, at, depth, idx) <==> exists j :: InItem(cfg, items, at, depth, idx, e, j)
  {
    if items != [] {
      var first, rest, next := All(cfg, items[0], at + [Index(idx)], depth + 1), items[1..], idx + 1;
      ItemsUnion(cfg, rest, at, depth, next, e);
      assert AllItems(cfg, items, at, depth, idx) == first + AllItems(cfg, rest, at, depth, next);
      if e in first {
        assert InItem(cfg, items, at, depth, idx, e, idx);
      }
      if j :| InItem(cfg, rest, at, depth, next, e, j) {
        assert InItem(cfg, items, at, depth, idx, e, j);
      }
      if j :| InItem(cfg, items, at, depth, idx, e, j) {
        assert e in AllItems(cfg, items, at, depth, idx) by {
          if j > idx {
            assert InItem(cfg, rest, at, depth, next, e, j);
          }
        }
      }
    }
  }

  /** The traversal without a limit reports exactly the faults of the places that it enters. */
  lemma {:induction false} AllExactly(cfg: Config, v: Value, at: seq<PathStep>, depth: nat, e: Error)
    requires depth <= MAX_DEPTH + 1
    ensures e in All(cfg, v, at, depth) <==> Reported(cfg, v, at, 64 - depth, e)
    decreases v
  {
    if depth > MAX_DEPTH {
      NoRoom(cfg, v, at, e);
    } else {
      ReportedUnfolds(cfg, v, at, 64 - depth, e);
      match v
      case Object(members) => ObjectExactly(cfg, members, at, depth, e);
      case Array(items) => ArrayExactly(cfg, items, at, depth, e);
      case _ =>
    }
  }

  lemma NoRoom(cfg: Config, v: Value, at: seq<PathStep>, e: Error)
    ensures Reported(cfg, v, at, -1, e) <==> e == Error(TooDeep, [])
  {
    assert Leads(cfg, v, [], v);
  }

  lemma {:induction false} ObjectExactly(cfg: Config, members: seq<(Str, Value)>, at: seq<PathStep>, depth: nat,
                                         e: Error)
    requires depth <= MAX_DEPTH
    ensures e in AllMembers(cfg, members, at, depth) <==>
            Here(cfg, Object(members), at, e) || Below(cfg, Object(members), at, 64 - depth, e)
    decreases members
  {
    MembersUnion(cfg, members, at, depth, e);
    var v, room := Object(members), 64 - depth;
    forall m | m in members
      ensures InMember(cfg, members, at, depth, e, m) <==>
              (e.path == at + [Key(m.0)] && MemberFault(cfg, m.0, m.1, e.kind)) ||
              (Child(cfg, v, Key(m.0), m.1) && Reported(cfg, m.1, at + [Key(m.0)], room - 1, e))
    {
      assert (m.0, m.1) == m;
      OwnExactly(cfg, m, at, e);
      AllExactly(cfg, m.1, at + [Key(m.0)], depth + 1, e);
    }
    if m :| InMember(cfg, members, at, depth, e, m) {
      assert Here(cfg, v, at, e) || Below(cfg, v, at, room, e);
    }
    if Here(cfg, v, at, e) {
      var m :| m in members && e.path == at + [Key(m.0)] && MemberFault(cfg, m.0, m.1, e.kind);
      assert InMember(cfg, members, at, depth, e, m);
    }
    if Below(cfg, v, at, room, e) {
      var step, u :| Child(cfg, v, step, u) && Reported(cfg, u, at + [step], room - 1, e);
      assert InMember(cfg, members, at, depth, e, (step.k, u));
    }
  }

  lemma {:induction false} ArrayExactly(cfg: Config, items: seq<Value>, at: seq<PathStep>, depth: nat, e: Error)
    requires depth <= MAX_DEPTH
    ensures e in AllItems(cfg, items, at, depth, 0) <==>
            Here(cfg, Array(items), at, e) || Below(cfg, Array(items), at, 64 - depth, e)
    decreases items
  {
    ItemsUnion(cfg, items, at, depth, 0, e);
    var v, room := Array(items), 64 - depth;
    forall j | 0 <= j < |items|
      ensures InItem(cfg, items, at, depth, 0, e, j) <==>
              Child(cfg, v, Index(j), items[j]) && Reported(cfg, items[j], at + [Index(j)], room - 1, e)
    {
      AllExactly(cfg, items[j], at + [Index(j)], depth + 1, e);
    }
    if j :| InItem(cfg, items, at, depth, 0, e, j) {
      assert Below(cfg, v, at, room, e);
    }
    if Below(cfg, v, at, room, e) {
      var step, u :| Child(cfg, v, step, u) && Reported(cfg, u, at + [step], room - 1, e);
      assert InItem(cfg, items, at, depth, 0, e, step.i);
    }
  }

  // -------------------------------------------------------- the scan that stops early

  /** Nothing is reported by the scan that the full traversal does not report. */
  lemma {:induction false} VisitSound(cfg: Config, limit: nat, errors: seq<Error>, v: Value, at: seq<PathStep>,
                                      depth: nat, e: Error)
    requires e in Visit(cfg, limit, errors, v, at, depth)
    ensures e in errors || e in All(cfg, v, at, depth)
    decreases v, 1
  {
    if |errors| < limit && depth <= MAX_DEPTH {
      match v
      case Object(members) => MembersSound(cfg, limit, errors, members, at, depth, e);
      case Array(items) => ItemsSound(cfg, limit, errors, items, at, depth, 0, e);
      case _ =>
    }
  }

  lemma {:induction false} MemberSound(cfg: Config, limit: nat, errors: seq<Error>, m: (Str, Value),
                                       at: seq<PathStep>, depth: nat, e: Error)
    requires e in VisitMember(cfg, limit, errors, m, at, depth).0
    ensures e in errors || e in AllMember(cfg, m, at, depth)
    decreases m, 2
  {
    var reported := errors + Own(cfg, m, at);
    if !(Own(cfg, m, at) != [] && |reported| >= limit) && !Treat(cfg, m).Counter? {
      VisitSound(cfg, limit, reported, m.1, at + [Key(m.0)], depth + 1, e);
    }
  }

  lemma {:induction false} MembersSound(cfg: Config, limit: nat, errors: seq<Error>, members: seq<(Str, Value)>,
                                        at: seq<PathStep>, depth: nat, e: Error)
    requires e in VisitMembers(cfg, limit, errors, members, at, depth)
    ensures e in errors || e in AllMembers(cfg, members, at, depth)
    decreases members, 0
  {
    if members != [] {
      var (after, returned) := VisitMember(cfg, limit, errors, members[0], at, depth);
      if !returned && e !in after {
        MembersSound(cfg, limit, after, members[1..], at, depth, e);
      } else {
        MemberSound(cfg, limit, errors, members[0], at, depth, e);
      }
    }
  }

  lemma {:induction false} ItemsSound(cfg: Config, limit: nat, errors: seq<Error>, items: seq<Value>,
                                      at: seq<PathStep>, depth: nat, idx: nat, e: Error)
    requires e in VisitItems(cfg, limit, errors, items, at, depth, idx)
    ensures e in errors || e in AllItems(cfg, items, at, depth, idx)
    decreases items, 0
  {
    if items != [] {
      var after := Visit(cfg, limit, errors, items[0], at + [Index(idx)], depth + 1);
      if |after| < limit && e !in after {
        ItemsSound(cfg, limit, after, items[1..], at, depth, idx + 1, e);
      } else {
        VisitSound(cfg, limit, errors, items[0], at + [Index(idx)], depth + 1, e);
      }
    }
  }

  /** Whatever the scan reports is a fault of a place that it enters; it reports nothing only if there is no fault; and
      below its limit it reports every one. */
  lemma ScanExactly(cfg: Config, limit: nat, v: Value)
    requires limit > 0
    ensures var r := Visit(cfg, limit, [], v, [], 0);
            && (forall e <- r :: Reported(cfg, v, [], 64, e))
            && (r == [] || |r| < limit ==> forall e :: Reported(cfg, v, [], 64, e) ==> e in r)
  {
    var r := Visit(cfg, limit, [], v, [], 0);
    EarlyExitKeepsVerdict(cfg, limit, v);
    forall e ensures e in All(cfg, v, [], 0) <==> Reported(cfg, v, [], 64, e) {
      AllExactly(cfg, v, [], 0, e);
    }
    forall e | e in r ensures e in All(cfg, v, [], 0) {
      VisitSound(cfg, limit, [], v, [], 0, e);
    }
  }
}
