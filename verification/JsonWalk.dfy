/** `_check_value_limits`: the explicit-stack walk, and its agreement with the text checks. */
module JsonWalk {
  import opened Maximum
  import opened Options
  import opened Json
  import opened JsonInjective
  import opened JsonLimits

  datatype LimitError = DigitLimit | NestingLimit

  function Pow10(k: nat): nat {
    if k == 0 then 1 else 10 * Pow10(k - 1)
  }

  function Abs(n: int): nat {
    if n < 0 then -n else n
  }

  predicate IntegerFits(n: int) {
    Abs(n) < Pow10(MAX_INTEGER_DIGITS)
  }

  predicate IntegersFit(v: Value) {
    match v
    case Int(n) => IntegerFits(n)
    case Array(items) => ItemsFit(items)
    case Object(members) => MembersFit(members)
    case _ => true
  }

  predicate ItemsFit(items: seq<Value>) {
    items == [] || (IntegersFit(items[0]) && ItemsFit(items[1..]))
  }

  predicate MemberFits(m: (Str, Value)) {
    IntegersFit(m.1)
  }

  predicate MembersFit(members: seq<(Str, Value)>) {
    members == [] || (MemberFits(members[0]) && MembersFit(members[1..]))
  }

  // ------------------------------------------------------------------ the walk

  type Stack = seq<(Value, nat)>

  function Size(v: Value): nat {
    match v
    case Array(items) => 1 + ItemsSize(items)
    case Object(members) => 1 + MembersSize(members)
    case _ => 1
  }

  function ItemsSize(items: seq<Value>): nat {
    if items == [] then 0 else Size(items[0]) + ItemsSize(items[1..])
  }

  function MemberSize(m: (Str, Value)): nat {
    Size(m.1)
  }

  function MembersSize(members: seq<(Str, Value)>): nat {
    if members == [] then 0 else MemberSize(members[0]) + MembersSize(members[1..])
  }

  function StackSize(stack: Stack): nat {
    if stack == [] then 0 else StackSize(stack[..|stack| - 1]) + Size(stack[|stack| - 1].0)
  }

  lemma {:induction false} StackSizeConcat(a: Stack, b: Stack)
    ensures StackSize(a + b) == StackSize(a) + StackSize(b)
  {
    if b == [] {
      assert a + b == a;
    } else {
      assert (a + b)[..|a + b| - 1] == a + b[..|b| - 1];
      StackSizeConcat(a, b[..|b| - 1]);
    }
  }

  /** `(child, depth) for child in children` */
  function Pushed(children: seq<Value>, depth: nat): (stack: Stack)
    ensures forall k :: 0 <= k < |stack| ==> stack[k].1 == depth
  {
    if children == [] then [] else [(children[0], depth)] + Pushed(children[1..], depth)
  }

  function ValuesOf(members: seq<(Str, Value)>): (values: seq<Value>)
    ensures |values| == |members|
  {
    if members == [] then [] else [members[0].1] + ValuesOf(members[1..])
  }

  lemma {:induction false} PushedSize(children: seq<Value>, depth: nat)
    ensures StackSize(Pushed(children, depth)) == ItemsSize(children)
  {
    if children != [] {
      PushedSize(children[1..], depth);
      StackSizeConcat([(children[0], depth)], Pushed(children[1..], depth));
      assert StackSize([(children[0], depth)]) == Size(children[0]) by {
        assert [(children[0], depth)][..0] == [];
      }
    }
  }

  /** A dict is measured by its values. */
  lemma {:induction false} ValuesMeasure(members: seq<(Str, Value)>)
    ensures ItemsSize(ValuesOf(members)) == MembersSize(members)
    ensures ItemsDepth(ValuesOf(members)) == MembersDepth(members)
    ensures ItemsFit(ValuesOf(members)) <==> MembersFit(members)
  {
    if members != [] {
      ValuesMeasure(members[1..]);
      assert ValuesOf(members)[1..] == ValuesOf(members[1..]);
    }
  }

  /** The deepest level that the stack still has to show, and whether its integers fit. */
  function StackDepth(stack: Stack): nat {
    if stack == [] then 0
    else Max(stack[|stack| - 1].1 + Depth(stack[|stack| - 1].0), StackDepth(stack[..|stack| - 1]))
  }

  predicate StackFits(stack: Stack) {
    stack == [] || (IntegersFit(stack[|stack| - 1].0) && StackFits(stack[..|stack| - 1]))
  }

  lemma {:induction false} StackConcat(a: Stack, b: Stack)
    ensures StackDepth(a + b) == Max(StackDepth(a), StackDepth(b))
    ensures StackFits(a + b) <==> StackFits(a) && StackFits(b)
  {
    if b == [] {
      assert a + b == a;
    } else {
      assert (a + b)[..|a + b| - 1] == a + b[..|b| - 1];
      StackConcat(a, b[..|b| - 1]);
    }
  }

  lemma {:induction false} PushedMeasure(children: seq<Value>, depth: nat)
    ensures StackDepth(Pushed(children, depth)) == if children == [] then 0 else depth + ItemsDepth(children)
    ensures StackFits(Pushed(children, depth)) <==> ItemsFit(children)
  {
    if children != [] {
      PushedMeasure(children[1..], depth);
      var first: Stack := [(children[0], depth)];
      StackConcat(first, Pushed(children[1..], depth));
      assert first[..0] == [];
      assert StackDepth(first) == depth + Depth(children[0]);
      assert StackFits(first) <==> IntegersFit(children[0]);
    }
  }

  method CheckValueLimits(value: Value) returns (e: Option<LimitError>)
    ensures e.None? <==> Depth(value) <= 64 && IntegersFit(value)
    ensures e == Some(DigitLimit) ==> !IntegersFit(value)
    ensures e == Some(NestingLimit) ==> Depth(value) > 64
  {
    var stack: Stack := [(value, 0)];
    assert stack[..0] == [];
    while stack != []
      invariant Depth(value) <= MAX_DEPTH <==> StackDepth(stack) <= MAX_DEPTH
      invariant IntegersFit(value) <==> StackFits(stack)
      invariant forall k :: 0 <= k < |stack| ==> stack[k].1 <= MAX_DEPTH
      decreases StackSize(stack)
    {
      var (item, depth) := stack[|stack| - 1];
      stack := stack[..|stack| - 1];
      if item.Int? && Abs(item.n) >= Pow10(MAX_INTEGER_DIGITS) { return Some(DigitLimit); }
      if item.Array? || item.Object? {
        depth := depth + 1;
        if depth > MAX_DEPTH { return Some(NestingLimit); }
        var children := if item.Object? then ValuesOf(item.members) else item.items;
        if item.Object? { ValuesMeasure(item.members); }
        PushedMeasure(children, depth);
        PushedSize(children, depth);
        StackConcat(stack, Pushed(children, depth));
        StackSizeConcat(stack, Pushed(children, depth));
        stack := stack + Pushed(children, depth);
      }
    }
    return None;
  }

  // ------------------------------------------------------------ integer literals

  /** `_json_int`: false is the raised digit-limit error. */
  predicate JsonIntAccepts(raw: string) {
    |raw| - (if "-" <= raw then 1 else 0) <= MAX_INTEGER_DIGITS
  }

  lemma {:induction false} DigitsLength(n: nat, k: nat)
    requires k > 0
    ensures |Digits(n)| <= k <==> n < Pow10(k)
  {
    assert Pow10(k) == 10 * Pow10(k - 1);
    if n < 10 {
      PowPositive(k - 1);
    } else if k > 1 {
      DigitsLength(n / 10, k - 1);
    }
  }

  lemma {:induction false} PowPositive(k: nat)
    ensures Pow10(k) >= 1
  {
    if k > 0 {
      PowPositive(k - 1);
    }
  }

  /** An integer's text is too long exactly when its magnitude is. */
  lemma DigitLimitAgrees(n: int, limit: nat)
    requires limit == 640
    ensures JsonIntAccepts(Decimal(n)) <==> Abs(n) < Pow10(limit)
  {
    DigitsLength(Abs(n), limit);
    DigitsRead(Abs(n));
    if n >= 0 {
      assert Decimal(n)[0] != '-';
    }
  }

  // --------------------------------------------------- the checks on a whole text

  /** The integer literals of a value's canonical text. */
  function Literals(v: Value): seq<string> {
    match v
    case Int(n) => [Decimal(n)]
    case Array(items) => ItemsLiterals(items)
    case Object(members) => MembersLiterals(members)
    case _ => []
  }

  function ItemsLiterals(items: seq<Value>): seq<string> {
    if items == [] then [] else Literals(items[0]) + ItemsLiterals(items[1..])
  }

  function MemberLiterals(m: (Str, Value)): seq<string> {
    Literals(m.1)
  }

  function MembersLiterals(members: seq<(Str, Value)>): seq<string> {
    if members == [] then [] else MemberLiterals(members[0]) + MembersLiterals(members[1..])
  }

  predicate AllAccepted(raws: seq<string>) {
    forall i :: 0 <= i < |raws| ==> JsonIntAccepts(raws[i])
  }

  lemma AcceptedConcat(a: seq<string>, b: seq<string>)
    ensures AllAccepted(a + b) <==> AllAccepted(a) && AllAccepted(b)
  {
    if AllAccepted(a + b) {
      assert forall i :: 0 <= i < |a| ==> a[i] == (a + b)[i];
      assert forall i :: 0 <= i < |b| ==> b[i] == (a + b)[|a| + i];
    }
  }

  lemma {:induction false} LiteralsAgree(v: Value)
    ensures AllAccepted(Literals(v)) <==> IntegersFit(v)
    decreases v, 1
  {
    match v
    case Int(n) =>
      DigitLimitAgrees(n, MAX_INTEGER_DIGITS);
      assert AllAccepted(Literals(v)) ==> JsonIntAccepts(Literals(v)[0]);
    case Array(items) => ItemsLiteralsAgree(items);
    case Object(members) => MembersLiteralsAgree(members);
    case _ =>
  }

  lemma {:induction false} ItemsLiteralsAgree(items: seq<Value>)
    ensures AllAccepted(ItemsLiterals(items)) <==> ItemsFit(items)
    decreases items, 0
  {
    if items != [] {
      LiteralsAgree(items[0]);
      ItemsLiteralsAgree(items[1..]);
      AcceptedConcat(Literals(items[0]), ItemsLiterals(items[1..]));
    }
  }

  lemma {:induction false} MemberLiteralsAgree(m: (Str, Value))
    ensures AllAccepted(MemberLiterals(m)) <==> MemberFits(m)
    decreases m, 2
  {
    LiteralsAgree(m.1);
  }

  lemma {:induction false} MembersLiteralsAgree(members: seq<(Str, Value)>)
    ensures AllAccepted(MembersLiterals(members)) <==> MembersFit(members)
    decreases members, 0
  {
    if members != [] {
      MemberLiteralsAgree(members[0]);
      MembersLiteralsAgree(members[1..]);
      AcceptedConcat(MemberLiterals(members[0]), MembersLiterals(members[1..]));
    }
  }
}
