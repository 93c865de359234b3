/** What the lease authority guarantees about amounts, in every reachable state. */
module LeaseLimits {
  import opened Options
  import opened Lease
  import opened LeaseProof

  // ------------------------------------------------------------- bookkeeping

  /** The request's write is in the file, or was when its process stopped. */
  predicate Committed(pc: Pc) {
    (Base(pc).Unlocking? || Base(pc).Returned?) && Base(pc).granted
  }

  predicate Denied(pc: Pc) {
    (Base(pc).Unlocking? || Base(pc).Returned?) && !Base(pc).granted
  }

  /** `lease` has returned True to its caller. */
  predicate Told(pc: Pc) {
    pc == Returned(true)
  }

  function Share(r: Request, key: string, counts: bool): real {
    if counts && r.key == key then r.amount else 0.0
  }

  /** Amounts committed for `key` by the first `n` processes. */
  function Total(reqs: seq<Request>, pcs: seq<Pc>, key: string, n: nat): real
    requires n <= |reqs| == |pcs|
  {
    if n == 0 then 0.0 else Total(reqs, pcs, key, n - 1) + Share(reqs[n - 1], key, Committed(pcs[n - 1]))
  }

  /** Amounts for `key` that callers have been told they hold. */
  function Granted(reqs: seq<Request>, pcs: seq<Pc>, key: string, n: nat): real
    requires n <= |reqs| == |pcs|
  {
    if n == 0 then 0.0 else Granted(reqs, pcs, key, n - 1) + Share(reqs[n - 1], key, Told(pcs[n - 1]))
  }

  lemma {:induction false} TotalUpdate(reqs: seq<Request>, pcs: seq<Pc>, key: string, n: nat, i: nat, pc: Pc)
    requires n <= |reqs| == |pcs| && i < |reqs|
    ensures Total(reqs, pcs[i := pc], key, n) ==
            Total(reqs, pcs, key, n) +
            if i < n then Share(reqs[i], key, Committed(pc)) - Share(reqs[i], key, Committed(pcs[i])) else 0.0
  {
    if n > 0 {
      TotalUpdate(reqs, pcs, key, n - 1, i, pc);
    }
  }

  lemma {:induction false} NothingCommitted(reqs: seq<Request>, pcs: seq<Pc>, key: string, n: nat)
    requires n <= |reqs| == |pcs| && forall i :: 0 <= i < n ==> pcs[i].Spinning?
    ensures Total(reqs, pcs, key, n) == 0.0
  {
    if n > 0 {
      NothingCommitted(reqs, pcs, key, n - 1);
    }
  }

  lemma {:induction false} GrantedAtMostTotal(reqs: seq<Request>, pcs: seq<Pc>, key: string, n: nat)
    requires n <= |reqs| == |pcs| && NonNegative(reqs, key)
    ensures Granted(reqs, pcs, key, n) <= Total(reqs, pcs, key, n)
  {
    if n > 0 {
      GrantedAtMostTotal(reqs, pcs, key, n - 1);
    }
  }

  /** No request for `key` names a ceiling above `cap`, slack included. */
  ghost predicate Capped(reqs: seq<Request>, key: string, cap: real) {
    forall i :: 0 <= i < |reqs| && reqs[i].key == key ==> reqs[i].ceiling + 0.000000001 <= cap
  }

  ghost predicate NonNegative(reqs: seq<Request>, key: string) {
    forall i :: 0 <= i < |reqs| && reqs[i].key == key ==> reqs[i].amount >= 0.0
  }

  // -------------------------------------------------------------- the ceiling

  ghost function Booked(reqs: seq<Request>, init: Ledger, key: string, s: State): real
    requires |reqs| == |s.pcs|
  {
    Leased(init, key) + Total(reqs, s.pcs, key, |reqs|)
  }

  /** The file, whenever it can be read, holds exactly what has been committed; so does what is being written. */
  ghost predicate BooksInv(reqs: seq<Request>, init: Ledger, key: string, cap: real, s: State)
    requires LockInv(reqs, s)
  {
    var t := Booked(reqs, init, key, s);
    && t <= cap
    && (!s.file.Torn? ==> Leased(Contents(s.file), key) == t)
    && (Owner(s).Some? && Owner(s).value.Writing? ==>
          Leased(Owner(s).value.data, key) == t + Share(reqs[s.acquired[|s.acquired| - 1]], key, true) <= cap)
  }

  lemma BooksMove(r: Request, key: string, cap: real, t: real, file: File, pc: Pc, action: Action)
    requires Inside(pc) && Local(r, file, pc, action).Some? && (r.key == key ==> r.ceiling + SLACK <= cap)
    requires t <= cap && (!file.Torn? ==> Leased(Contents(file), key) == t)
    requires pc.Loaded? ==> !file.Torn? && pc.data == Contents(file)
    requires pc.Writing? ==> Leased(pc.data, key) == t + Share(r, key, true) <= cap
    ensures var (file', pc') := Local(r, file, pc, action).value;
            var t' := t + Share(r, key, Committed(pc')) - Share(r, key, Committed(pc));
            && t' <= cap
            && (!file'.Torn? ==> Leased(Contents(file'), key) == t')
            && (Base(pc').Writing? ==> Leased(Base(pc').data, key) == t' + Share(r, key, true) <= cap)
  {
  }

  /** How a step changes what is booked for a key. */
  lemma BookedStep(reqs: seq<Request>, init: Ledger, key: string, s: State, e: Event)
    requires LockInv(reqs, s) && Step(reqs, s, e).Some?
    ensures var s' := Step(reqs, s, e).value;
            LockInv(reqs, s') && s'.pcs == s.pcs[e.node := s'.pcs[e.node]] &&
            Booked(reqs, init, key, s') == Booked(reqs, init, key, s)
              + Share(reqs[e.node], key, Committed(s'.pcs[e.node])) - Share(reqs[e.node], key, Committed(s.pcs[e.node]))
  {
    LockStep(reqs, s, e);
    var s' := Step(reqs, s, e).value;
    TotalUpdate(reqs, s.pcs, key, |reqs|, e.node, s'.pcs[e.node]);
    assert s'.pcs == s.pcs[e.node := s'.pcs[e.node]];
  }

  /** Whoever holds the lock and has read the file has what is in it. */
  ghost predicate LoadedIsContents(s: State)
    requires InRange(|s.pcs|, s.acquired)
  {
    Owner(s).Some? && Owner(s).value.Loaded? ==> !s.file.Torn? && Owner(s).value.data == Contents(s.file)
  }

  lemma OwnerHasContents(reqs: seq<Request>, init: Ledger, s: State)
    requires OrderInv(reqs, init, s)
    ensures LoadedIsContents(s)
  {
  }

  lemma BooksStep(reqs: seq<Request>, init: Ledger, key: string, cap: real, s: State, e: Event)
    requires LockInv(reqs, s) && LoadedIsContents(s) && Capped(reqs, key, cap)
    requires BooksInv(reqs, init, key, cap, s) && Step(reqs, s, e).Some?
    ensures LockInv(reqs, Step(reqs, s, e).value) && BooksInv(reqs, init, key, cap, Step(reqs, s, e).value)
  {
    BookedStep(reqs, init, key, s, e);
    if Owns(s.pcs[e.node]) {
      var file, pc := OwnerView(reqs, s, e);
      BooksMove(reqs[e.node], key, cap, Booked(reqs, init, key, s), s.file, s.pcs[e.node], e.action);
    } else {
      OutsideView(reqs, s, e);
      BystanderBooks(reqs, init, key, cap, s, Step(reqs, s, e).value, e.node);
    }
  }

  lemma BystanderBooks(reqs: seq<Request>, init: Ledger, key: string, cap: real, s: State, s': State, node: nat)
    requires LockInv(reqs, s) && LockInv(reqs, s') && BooksInv(reqs, init, key, cap, s)
    requires s'.file == s.file && Booked(reqs, init, key, s') == Booked(reqs, init, key, s)
    requires node < |reqs| && Outside(s.pcs[node]) && s'.pcs == s.pcs[node := s'.pcs[node]]
    requires (!s.lockFile && s'.pcs[node] == Holding && s'.acquired == s.acquired + [node]) ||
             s' == s.(pcs := s'.pcs)
    ensures BooksInv(reqs, init, key, cap, s')
  {
  }

  lemma {:induction false} RunKeepsBooks(reqs: seq<Request>, start: State, events: seq<Event>, key: string,
                                         cap: real)
    requires Start(reqs, start) && Run(reqs, start, events).Some?
    requires Capped(reqs, key, cap) && Leased(Contents(start.file), key) <= cap
    ensures LockInv(reqs, Run(reqs, start, events).value)
    ensures BooksInv(reqs, Contents(start.file), key, cap, Run(reqs, start, events).value)
  {
    if events == [] {
      NothingCommitted(reqs, start.pcs, key, |reqs|);
    } else {
      var before := events[..|events| - 1];
      RunKeepsBooks(reqs, start, before, key, cap);
      RunKeepsOrder(reqs, start, before);
      OwnerHasContents(reqs, Contents(start.file), Run(reqs, start, before).value);
      BooksStep(reqs, Contents(start.file), key, cap, Run(reqs, start, before).value, events[|events| - 1]);
    }
  }

  /** In every reachable state: what callers hold for a key, on top of what was leased before, is at most what the
      file records for it, and both stay below any bound on the ceilings and on the earlier lease, even over a file
      broken by a failed write. With a common ceiling that the earlier lease respects, the bound is that ceiling and
      the slack. */
  lemma CeilingHolds(reqs: seq<Request>, start: State, events: seq<Event>, s: State, key: string, cap: real)
    requires Start(reqs, start) && Run(reqs, start, events) == Some(s)
    requires Capped(reqs, key, cap) && NonNegative(reqs, key) && Leased(Contents(start.file), key) <= cap
    ensures var held := Leased(Contents(start.file), key) + Granted(reqs, s.pcs, key, |reqs|);
            held <= cap && (!s.file.Torn? ==> held <= Leased(Contents(s.file), key) <= cap)
  {
    RunKeepsBooks(reqs, start, events, key, cap);
    GrantedAtMostTotal(reqs, s.pcs, key, |reqs|);
  }

  // --------------------------------------------------- exactly as many as fit

  /** Whoever was refused would still not fit. */
  ghost predicate DenialInv(reqs: seq<Request>, init: Ledger, s: State)
    requires |reqs| == |s.pcs|
  {
    forall i :: 0 <= i < |reqs| && Denied(s.pcs[i]) ==>
      Booked(reqs, init, reqs[i].key, s) + reqs[i].amount > reqs[i].ceiling + SLACK
  }

  lemma DenialStep(reqs: seq<Request>, init: Ledger, s: State, e: Event)
    requires LockInv(reqs, s) && LoadedIsContents(s) && DenialInv(reqs, init, s) && Step(reqs, s, e).Some?
    requires forall i :: 0 <= i < |reqs| ==> reqs[i].amount >= 0.0
    requires forall i :: 0 <= i < |reqs| && !s.file.Torn? ==>
               Leased(Contents(s.file), reqs[i].key) == Booked(reqs, init, reqs[i].key, s)
    ensures DenialInv(reqs, init, Step(reqs, s, e).value)
  {
    var s' := Step(reqs, s, e).value;
    CommitmentsStay(reqs, s, e);
    BookedStep(reqs, init, reqs[e.node].key, s, e);
    forall i | 0 <= i < |reqs| && Denied(s'.pcs[i])
      ensures Booked(reqs, init, reqs[i].key, s') + reqs[i].amount > reqs[i].ceiling + SLACK
    {
      BookedStep(reqs, init, reqs[i].key, s, e);
      assert Booked(reqs, init, reqs[i].key, s') >= Booked(reqs, init, reqs[i].key, s);
    }
  }

  /** A commitment is never taken back, and who is refused asked for more than fits in the file. */
  lemma CommitmentsStay(reqs: seq<Request>, s: State, e: Event)
    requires LockInv(reqs, s) && LoadedIsContents(s) && Step(reqs, s, e).Some?
    ensures var s' := Step(reqs, s, e).value;
            && (Committed(s.pcs[e.node]) ==> Committed(s'.pcs[e.node]))
            && (Denied(s'.pcs[e.node]) && !Denied(s.pcs[e.node]) ==>
                  !s.file.Torn? && !Grants(Contents(s.file), reqs[e.node]))
  {
  }

  lemma {:induction false} RunKeepsDenials(reqs: seq<Request>, start: State, events: seq<Event>, key: string,
                                           cap: real)
    requires Start(reqs, start) && Run(reqs, start, events).Some?
    requires forall i :: 0 <= i < |reqs| ==> reqs[i].key == key && reqs[i].amount >= 0.0
    requires Capped(reqs, key, cap) && Leased(Contents(start.file), key) <= cap
    ensures DenialInv(reqs, Contents(start.file), Run(reqs, start, events).value)
  {
    if events != [] {
      var before := events[..|events| - 1];
      RunKeepsDenials(reqs, start, before, key, cap);
      RunKeepsBooks(reqs, start, before, key, cap);
      RunKeepsOrder(reqs, start, before);
      OwnerHasContents(reqs, Contents(start.file), Run(reqs, start, before).value);
      DenialStep(reqs, Contents(start.file), Run(reqs, start, before).value, events[|events| - 1]);
    }
  }

  /** How many of the first `n` processes were granted their lease. */
  function Winners(pcs: seq<Pc>, n: nat): (w: nat)
    requires n <= |pcs|
    ensures w <= n
    ensures w < n ==> exists i :: 0 <= i < n && !Told(pcs[i])
  {
    if n == 0 then 0 else Winners(pcs, n - 1) + if Told(pcs[n - 1]) then 1 else 0
  }

  lemma {:induction false} TotalOfWinners(reqs: seq<Request>, pcs: seq<Pc>, key: string, a: nat, n: nat)
    requires n <= |reqs| == |pcs| && forall i :: 0 <= i < n ==> pcs[i].Returned?
    requires forall i :: 0 <= i < n ==> reqs[i].key == key && reqs[i].amount == a as real
    ensures Total(reqs, pcs, key, n) == (a * Winners(pcs, n)) as real
  {
    if n > 0 {
      TotalOfWinners(reqs, pcs, key, a, n - 1);
      OneMoreWinner(a, Winners(pcs, n - 1), Told(pcs[n - 1]));
    }
  }

  lemma OneMoreWinner(a: nat, w: nat, told: bool)
    ensures (a * (w + if told then 1 else 0)) as real == (a * w) as real + if told then a as real else 0.0
  {
    assert a * (w + 1) == a * w + a;
  }

  lemma Quotient(a: nat, c: nat, w: nat)
    requires 0 < a && a * w <= c
    ensures w <= c / a
    ensures c < a * w + a ==> w == c / a
  {
    assert c == a * (c / a) + c % a;
    if c / a + 1 <= w {
      TimesMonotone(a, c / a + 1, w);
    } else if w + 1 <= c / a {
      TimesMonotone(a, w + 1, c / a);
    }
  }

  lemma TimesMonotone(a: nat, x: nat, y: nat)
    requires x <= y
    ensures a * x <= a * y
  {
  }

  /** When n equal requests of amount a against ceiling c have all returned and l was leased before, exactly
      min(n, (c - l) / a) were granted, and none if l was above the ceiling already. */
  lemma ExactlyAsManyAsFit(reqs: seq<Request>, start: State, events: seq<Event>, s: State, key: string, a: nat, c: nat,
                           l: nat)
    requires Start(reqs, start) && Run(reqs, start, events) == Some(s) && 0 < a
    requires forall i :: 0 <= i < |reqs| ==> reqs[i] == Request(key, a as real, c as real)
    requires Leased(Contents(start.file), key) == l as real && |s.pcs| == |reqs|
    requires forall i :: 0 <= i < |reqs| ==> s.pcs[i].Returned?
    ensures var fit := if l <= c then (c - l) / a else 0;
            Winners(s.pcs, |reqs|) == if |reqs| <= fit then |reqs| else fit
  {
    var n := |reqs|;
    var w := Winners(s.pcs, n);
    var cap := if l <= c then c as real + SLACK else l as real;
    RunKeepsBooks(reqs, start, events, key, cap);
    RunKeepsDenials(reqs, start, events, key, cap);
    TotalOfWinners(reqs, s.pcs, key, a, n);
    if w < n {
      var i :| 0 <= i < n && !Told(s.pcs[i]);
      assert Denied(s.pcs[i]);
    }
    Fitting(n, w, a, c, l);
  }

  /** The number that fits, from what is booked in the end. */
  lemma Fitting(n: nat, w: nat, a: nat, c: nat, l: nat)
    requires 0 < a && w <= n
    requires l as real + (a * w) as real <= if l <= c then c as real + SLACK else l as real
    requires w < n ==> l as real + (a * w) as real + a as real > c as real + SLACK
    ensures var fit := if l <= c then (c - l) / a else 0;
            w == if n <= fit then n else fit
  {
    if l <= c {
      assert l + a * w <= c;
      Quotient(a, c - l, w);
    } else {
      assert a * w <= 0;
      NoWinner(a, w);
    }
  }

  lemma NoWinner(a: nat, w: nat)
    requires a > 0 && a * w <= 0
    ensures w == 0
  {
    if w > 0 {
      TimesMonotone(a, 1, w);
    }
  }
}
