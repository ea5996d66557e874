/** Used by one thread at a time, the three atomics do what the sequential reports and checks say. */
module HealthRefinement {
  import opened Health

  /** The atomics are the digest of the history, as in `BackendHealth.Valid`. */
  ghost predicate Digests(s: State, log: seq<Report>) {
    && (s.healthy <==> TrailingFailures(log) == 0)
    && s.since == DownSince(log)
    && s.failures == TrailingFailures(log)
  }

  ghost predicate Free(s: State, t: nat) { t !in s.threads || s.threads[t].Done? }

  lemma {:induction false} RunConcat(s: State, x: seq<Action>, y: seq<Action>)
    ensures Run(s, x + y) == Run(Run(s, x), y)
    decreases |x|
  {
    if x == [] {
      assert x + y == y;
    } else {
      assert (x + y)[1..] == x[1..] + y;
      RunConcat(Next(s, x[0]), x[1..], y);
    }
  }

  /** A whole operation: called, then all its steps, five for the longest. */
  ghost function Whole(t: nat, op: Thread): seq<Action> { [Spawn(t, op), Step(t), Step(t), Step(t), Step(t)] }

  lemma RunWhole(s: State, t: nat, op: Thread)
    ensures Run(s, Whole(t, op)) ==
            Next(Next(Next(Next(Next(s, Spawn(t, op)), Step(t)), Step(t)), Step(t)), Step(t))
  {
    var s1 := Next(s, Spawn(t, op));
    var s2 := Next(s1, Step(t));
    var s3 := Next(s2, Step(t));
    var s4 := Next(s3, Step(t));
    RunFrom(s, Whole(t, op), 5, [s, s1, s2, s3, s4, Next(s4, Step(t))]);
  }

  /** The state with `t` at `th`. */
  ghost function With(s: State, t: nat, th: Thread): State { s.(threads := s.threads[t := th]) }

  lemma SpawnAt(s: State, t: nat, op: Thread)
    requires Free(s, t) && Entry(op)
    ensures Next(s, Spawn(t, op)) == With(s, t, op)
  {
  }

  lemma Again(threads: map<nat, Thread>, t: nat, a: Thread, b: Thread)
    ensures threads[t := a][t := b] == threads[t := b]
  {
  }

  lemma SuccessSteps(s: State, t: nat)
    requires Free(s, t)
    ensures Run(s, Whole(t, SuccessSwap)) == With(s.(healthy := true, failures := 0, since := 0), t, Done)
  {
    RunWhole(s, t, SuccessSwap);
    SpawnAt(s, t, SuccessSwap);
    Again(s.threads, t, SuccessSwap, SuccessCount);
    assert Next(With(s, t, SuccessSwap), Step(t)) == With(s.(healthy := true), t, SuccessCount);
    Again(s.threads, t, SuccessCount, SuccessClear);
    assert Next(With(s.(healthy := true), t, SuccessCount), Step(t))
        == With(s.(healthy := true, failures := 0), t, SuccessClear);
    Again(s.threads, t, SuccessClear, Done);
  }

  lemma FailureBegins(s: State, t: nat)
    requires Free(s, t)
    ensures Next(Next(s, Spawn(t, FailSwap)), Step(t)) == With(s.(healthy := false), t, FailCount(s.healthy))
  {
    SpawnAt(s, t, FailSwap);
    Again(s.threads, t, FailSwap, FailCount(s.healthy));
  }

  lemma FirstFailureEnds(s: State, t: nat)
    ensures Next(Next(Next(With(s, t, FailCount(true)), Step(t)), Step(t)), Step(t)) ==
            With(s.(failures := s.failures + 1, since := s.clock, readings := s.readings + {s.clock}), t, Done)
  {
    var counted := s.(failures := s.failures + 1);
    Again(s.threads, t, FailCount(true), FailClock);
    assert Next(With(s, t, FailCount(true)), Step(t)) == With(counted, t, FailClock);
    Again(s.threads, t, FailClock, FailStore(s.clock));
    assert Next(With(counted, t, FailClock), Step(t))
        == With(counted.(readings := s.readings + {s.clock}), t, FailStore(s.clock));
    Again(s.threads, t, FailStore(s.clock), Done);
  }

  lemma RepeatedFailureEnds(s: State, t: nat)
    ensures Next(Next(Next(With(s, t, FailCount(false)), Step(t)), Step(t)), Step(t)) ==
            With(s.(failures := s.failures + 1), t, Done)
  {
    Again(s.threads, t, FailCount(false), Done);
    assert Next(With(s, t, FailCount(false)), Step(t)) == With(s.(failures := s.failures + 1), t, Done);
  }

  lemma FailureSteps(s: State, t: nat)
    requires Free(s, t)
    ensures Run(s, Whole(t, FailSwap)) ==
            if s.healthy
            then With(s.(healthy := false, failures := s.failures + 1, since := s.clock,
                         readings := s.readings + {s.clock}), t, Done)
            else With(s.(failures := s.failures + 1), t, Done)
  {
    RunWhole(s, t, FailSwap);
    FailureBegins(s, t);
    if s.healthy { FirstFailureEnds(s.(healthy := false), t); } else { RepeatedFailureEnds(s, t); }
  }

  lemma SuccessAlone(s: State, t: nat, log: seq<Report>)
    requires Free(s, t) && Digests(s, log)
    ensures Digests(Run(s, Whole(t, SuccessSwap)), log + [Success])
    ensures Free(Run(s, Whole(t, SuccessSwap)), t) && Run(s, Whole(t, SuccessSwap)).clock == s.clock
  {
    SuccessSteps(s, t);
  }

  lemma FailureAlone(s: State, t: nat, log: seq<Report>)
    requires Free(s, t) && Digests(s, log)
    ensures Digests(Run(s, Whole(t, FailSwap)), log + [Failure(s.clock)])
    ensures Free(Run(s, Whole(t, FailSwap)), t) && Run(s, Whole(t, FailSwap)).clock == s.clock
  {
    FailureSteps(s, t);
    var log' := log + [Failure(s.clock)];
    assert log'[..|log'| - 1] == log;
  }

  /** A check changes nothing but the record of refusals, and is refused exactly when
      `BackendHealth.IsEligible` answers no. */
  lemma CheckAlone(s: State, t: nat, log: seq<Report>, cooldown: nat)
    requires Free(s, t) && Digests(s, log)
    ensures var e := Run(s, Whole(t, CheckHealthy(cooldown)));
            && Digests(e, log) && Free(e, t) && e.clock == s.clock
            && e.denials == s.denials +
               if TrailingFailures(log) == 0 || DownSince(log) == 0 || s.clock >= DownSince(log) + cooldown
                  || cooldown == 0
               then {} else {Denial(s.clock, cooldown)}
  {
    RunWhole(s, t, CheckHealthy(cooldown));
    SpawnAt(s, t, CheckHealthy(cooldown));
  }

  // ---------- Serial runs ----------

  datatype Op = Succeed | Fail | Check(cooldown: nat) | Wait(d: nat)

  /** The actions of one operation, and the reports it makes. */
  ghost function ActionsOf(t: nat, op: Op): seq<Action> {
    match op
    case Succeed => Whole(t, SuccessSwap)
    case Fail => Whole(t, FailSwap)
    case Check(c) => Whole(t, CheckHealthy(c))
    case Wait(d) => [Advance(d)]
  }

  ghost function ReportsOf(clock: nat, op: Op): seq<Report> {
    match op
    case Succeed => [Success]
    case Fail => [Failure(clock)]
    case _ => []
  }

  ghost function After(clock: nat, op: Op): nat { if op.Wait? then clock + op.d else clock }

  ghost function Schedule(t: nat, ops: seq<Op>): seq<Action> {
    if ops == [] then [] else ActionsOf(t, ops[0]) + Schedule(t, ops[1..])
  }

  /** The reports a serial run makes from clock value `clock` on. */
  ghost function History(clock: nat, ops: seq<Op>): seq<Report>
    decreases |ops|
  {
    if ops == [] then [] else ReportsOf(clock, ops[0]) + History(After(clock, ops[0]), ops[1..])
  }

  lemma WaitAlone(s: State, d: nat, log: seq<Report>)
    requires Digests(s, log)
    ensures Run(s, [Advance(d)]) == s.(clock := s.clock + d) && Digests(Run(s, [Advance(d)]), log)
  {
    assert [Advance(d)][1..] == [];
  }

  lemma LogAssoc(log: seq<Report>, r: seq<Report>, more: seq<Report>)
    ensures log + (r + more) == log + r + more
  {
  }

  lemma OneOp(s: State, t: nat, log: seq<Report>, op: Op)
    requires Free(s, t) && Digests(s, log)
    ensures var e := Run(s, ActionsOf(t, op));
            Digests(e, log + ReportsOf(s.clock, op)) && Free(e, t) && e.clock == After(s.clock, op)
  {
    match op
    case Succeed => SuccessAlone(s, t, log);
    case Fail => FailureAlone(s, t, log);
    case Check(c) => CheckAlone(s, t, log, c); assert log + [] == log;
    case Wait(d) => WaitAlone(s, d, log); assert log + [] == log;
  }

  /** Refinement: after any serial run the atomics hold the digest of exactly its reports. */
  lemma {:induction false} SerialRunDigests(s: State, t: nat, log: seq<Report>, ops: seq<Op>)
    requires Free(s, t) && Digests(s, log)
    ensures Digests(Run(s, Schedule(t, ops)), log + History(s.clock, ops))
    decreases |ops|
  {
    if ops == [] {
      assert log + [] == log;
    } else {
      var first, reports := ActionsOf(t, ops[0]), ReportsOf(s.clock, ops[0]);
      OneOp(s, t, log, ops[0]);
      RunConcat(s, first, Schedule(t, ops[1..]));
      SerialRunDigests(Run(s, first), t, log + reports, ops[1..]);
      LogAssoc(log, reports, History(After(s.clock, ops[0]), ops[1..]));
    }
  }

  /** A new backend digests the empty history, and so every serial run its own. */
  lemma NewBackendDigests(clock: nat, t: nat, ops: seq<Op>)
    ensures Digests(Run(Fresh(clock), Schedule(t, ops)), History(clock, ops))
  {
    SerialRunDigests(Fresh(clock), t, [], ops);
    assert [] + History(clock, ops) == History(clock, ops);
  }
}
