/** A process that runs alone: what it is told and what it leaves in the file. */
module LeaseAlone {
  import opened Options
  import opened Lease
  import opened LeaseFailures

  /** The steps of a request that is granted over a stored ledger, or refused. */
  function Script(granted: bool): seq<Event> {
    if granted then
      [Event(0, TryLock), Event(0, TestExists), Event(0, Read), Event(0, Decide), Event(0, FinishWrite),
       Event(0, Unlock)]
    else [Event(0, TryLock), Event(0, TestExists), Event(0, Read), Event(0, Decide), Event(0, Unlock)]
  }

  function At(file: File, pc: Pc, held: bool): State {
    State(held, file, [pc], [0])
  }

  function Cur(ledger: Ledger, key: string): real {
    if key in ledger then ledger[key] else 0.0
  }

  lemma {:induction false} RunScript(reqs: seq<Request>, script: seq<Event>, states: seq<State>, n: nat)
    requires n <= |script| && |states| == |script| + 1 && forall k :: 0 <= k < |states| ==> |states[k].pcs| == |reqs|
    requires forall k :: 0 <= k < |script| ==> Step(reqs, states[k], script[k]) == Some(states[k + 1])
    ensures Run(reqs, states[0], script[..n]) == Some(states[n])
  {
    if n > 0 {
      RunScript(reqs, script, states, n - 1);
      assert script[..n] == script[..n - 1] + [script[n - 1]];
      RunMore(reqs, states[0], script[..n - 1], script[n - 1]);
    }
  }

  lemma RefusedAlone(r: Request, ledger: Ledger)
    requires Cur(ledger, r.key) + r.amount > r.ceiling + 0.000000001
    ensures Run([r], State(false, Stored(ledger), [Spinning], []), Script(false)) ==
            Some(At(Stored(ledger), Returned(false), false))
  {
    var f, none := Stored(ledger), [];
    var states := [State(false, f, [Spinning], none), At(f, Holding, true), At(f, Opening, true),
                   At(f, Loaded(ledger), true), At(f, Unlocking(false), true), At(f, Returned(false), false)];
    assert none + [0] == [0];
    forall k | 0 <= k < 5 ensures Step([r], states[k], Script(false)[k]) == Some(states[k + 1]) {
      SetPc(states[k].pcs, 0, states[k + 1].pcs);
    }
    RunScript([r], Script(false), states, 5);
    assert Script(false)[..5] == Script(false);
  }

  lemma GrantedAlone(r: Request, ledger: Ledger)
    requires Cur(ledger, r.key) + r.amount <= r.ceiling + 0.000000001
    ensures Run([r], State(false, Stored(ledger), [Spinning], []), Script(true)) ==
            Some(At(Stored(ledger[r.key := Cur(ledger, r.key) + r.amount]), Returned(true), false))
  {
    var f, none, w := Stored(ledger), [], ledger[r.key := Cur(ledger, r.key) + r.amount];
    var states := [State(false, f, [Spinning], none), At(f, Holding, true), At(f, Opening, true),
                   At(f, Loaded(ledger), true), At(Torn, Writing(w), true), At(Stored(w), Unlocking(true), true),
                   At(Stored(w), Returned(true), false)];
    assert none + [0] == [0];
    forall k | 0 <= k < 6 ensures Step([r], states[k], Script(true)[k]) == Some(states[k + 1]) {
      SetPc(states[k].pcs, 0, states[k + 1].pcs);
    }
    RunScript([r], Script(true), states, 6);
    assert Script(true)[..6] == Script(true);
  }

  /** Alone over a stored ledger a request is granted exactly when it fits under its ceiling, up to 1e-9; its amount is
      then added to what its key had, and to nothing else; otherwise the file stays as it is. */
  lemma AloneExactly(r: Request, ledger: Ledger)
    ensures var fits := Cur(ledger, r.key) + r.amount <= r.ceiling + 0.000000001;
            var after := if fits then ledger[r.key := Cur(ledger, r.key) + r.amount] else ledger;
            Run([r], State(false, Stored(ledger), [Spinning], []), Script(fits)) ==
            Some(At(Stored(after), Returned(fits), false))
  {
    if Cur(ledger, r.key) + r.amount <= r.ceiling + 0.000000001 {
      GrantedAlone(r, ledger);
    } else {
      RefusedAlone(r, ledger);
    }
  }

  /** The 1e-9 is really given: one request can take a key that much above its ceiling. */
  lemma SlackIsAttained(key: string, c: real)
    ensures var s := Run([Request(key, c + 0.000000001, c)], State(false, Stored(map[]), [Spinning], []), Script(true));
            s.Some? && s.value.pcs[0] == Returned(true) && s.value.file == Stored(map[key := c + 0.000000001])
  {
    var empty: Ledger := map[];
    GrantedAlone(Request(key, c + 0.000000001, c), empty);
    assert empty[key := 0.0 + (c + 0.000000001)] == map[key := c + 0.000000001];
  }
}
