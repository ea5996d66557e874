/** Passive health of one stream backend: three atomics updated by connection reports. */
module Health {

  // ---------- Sequential use ----------

  /** A connection report; a failure carries the clock value (milliseconds) it reads if it needs one. */
  datatype Report = Success | Failure(now: nat)

  /** Length of the run of failures at the end of the history. */
  function TrailingFailures(log: seq<Report>): (n: nat)
    ensures n <= |log|
    ensures forall i :: |log| - n <= i < |log| ==> log[i].Failure?
    ensures n < |log| ==> log[|log| - n - 1].Success?
  {
    if log == [] || log[|log| - 1].Success? then 0
    else
      var init := log[..|log| - 1];
      assert forall i :: 0 <= i < |init| ==> init[i] == log[i];
      1 + TrailingFailures(init)
  }

  /** Clock value of the first failure of that run, 0 when there is none. */
  function DownSince(log: seq<Report>): nat {
    var n := TrailingFailures(log);
    if n == 0 then 0 else log[|log| - n].now
  }

  class BackendHealth {
    var healthy: bool
    var unhealthySince: nat
    var failures: nat
    ghost var log: seq<Report>

    /** The three fields are a digest of the history. */
    ghost predicate Valid()
      reads this
    {
      && failures == TrailingFailures(log)
      && unhealthySince == DownSince(log)
      && (healthy <==> TrailingFailures(log) == 0)
    }

    constructor ()
      ensures Valid() && log == []
    {
      healthy, unhealthySince, failures, log := true, 0, 0, [];
    }

    method RecordSuccess()
      requires Valid()
      modifies this
      ensures Valid() && log == old(log) + [Success]
    {
      healthy := true;
      failures := 0;
      unhealthySince := 0;
      log := log + [Success];
    }

    method RecordFailure(now: nat)
      requires Valid()
      modifies this
      ensures Valid() && log == old(log) + [Failure(now)]
      ensures !old(healthy) ==> unhealthySince == old(unhealthySince)
    {
      var wasHealthy := healthy;
      healthy := false;
      failures := failures + 1;
      if wasHealthy {
        unhealthySince := now;
      }
      ghost var before := log;
      log := log + [Failure(now)];
      assert log[..|log| - 1] == before;
    }

    /** Eligible unless the current run of failures began, at a non-zero clock value, less than one
        cooldown ago. */
    method IsEligible(now: nat, cooldown: nat) returns (ok: bool)
      requires Valid()
      ensures ok <==> TrailingFailures(log) == 0 || DownSince(log) == 0
                      || now >= DownSince(log) + cooldown || (cooldown == 0)
    {
      if healthy { return true; }
      if unhealthySince == 0 { return true; }
      var elapsed := if now >= unhealthySince then now - unhealthySince else 0;
      return elapsed >= cooldown;
    }
  }

  /** Repeated failures never extend the cooldown: it still counts from the first one. */
  lemma {:induction false} FailuresKeepDownSince(log: seq<Report>, more: seq<Report>)
    requires TrailingFailures(log) > 0 && forall r :: r in more ==> r.Failure?
    ensures DownSince(log + more) == DownSince(log)
    ensures TrailingFailures(log + more) == TrailingFailures(log) + |more|
  {
    if more == [] {
      assert log + more == log;
    } else {
      var init := more[..|more| - 1];
      FailuresKeepDownSince(log, init);
      var all := log + more;
      assert all[..|all| - 1] == log + init;
      assert all[|all| - 1] == more[|more| - 1] && more[|more| - 1] in more;
      var first := |log| - TrailingFailures(log);
      assert all[first] == log[first] && (log + init)[first] == log[first];
    }
  }

  // ---------- Concurrent use: interleaved atomic steps ----------

  /** A thread inside one of the three operations, by the atomic step it takes next. */
  datatype Thread =
    | Done
    | SuccessSwap | SuccessCount | SuccessClear
    | FailSwap | FailCount(was: bool) | FailClock | FailStore(now: nat)
    | CheckHealthy(cooldown: nat) | CheckSince(cooldown: nat) | CheckClock(cooldown: nat, since: nat)

  /** A check that answered "not eligible", and the clock value it decided at. */
  datatype Denial = Denial(at: nat, cooldown: nat)

  datatype State = State(
    healthy: bool, since: nat, failures: nat, clock: nat, threads: map<nat, Thread>,
    readings: set<nat>, denials: set<Denial>)

  datatype Action = Spawn(t: nat, op: Thread) | Step(t: nat) | Advance(d: nat)

  predicate Entry(op: Thread) { op.SuccessSwap? || op.FailSwap? || op.CheckHealthy? }

  function Goto(s: State, t: nat, next: Thread): State { s.(threads := s.threads[t := next]) }

  function Next(s: State, a: Action): State {
    match a
    case Advance(d) => s.(clock := s.clock + d)
    case Spawn(t, op) =>
      if (t !in s.threads || s.threads[t].Done?) && Entry(op) then Goto(s, t, op) else s
    case Step(t) =>
      if t !in s.threads then s
      else
        match s.threads[t]
        case Done => s
        case SuccessSwap => Goto(s, t, SuccessCount).(healthy := true)
        case SuccessCount => Goto(s, t, SuccessClear).(failures := 0)
        case SuccessClear => Goto(s, t, Done).(since := 0)
        case FailSwap => Goto(s, t, FailCount(s.healthy)).(healthy := false)
        case FailCount(was) => Goto(s, t, if was then FailClock else Done).(failures := s.failures + 1)
        case FailClock => Goto(s, t, FailStore(s.clock)).(readings := s.readings + {s.clock})
        case FailStore(now) => Goto(s, t, Done).(since := now)
        case CheckHealthy(c) => Goto(s, t, if s.healthy then Done else CheckSince(c))
        case CheckSince(c) => Goto(s, t, if s.since == 0 then Done else CheckClock(c, s.since))
        case CheckClock(c, since) =>
          var elapsed := if s.clock >= since then s.clock - since else 0;
          if elapsed >= c then Goto(s, t, Done)
          else Goto(s, t, Done).(denials := s.denials + {Denial(s.clock, c)})
  }

  function Run(s: State, actions: seq<Action>): State
    decreases |actions|
  {
    if actions == [] then s else Run(Next(s, actions[0]), actions[1..])
  }

  function Fresh(clock: nat): State { State(true, 0, 0, clock, map[], {}, {}) }

  /** A clock value some failure report has read. */
  ghost predicate Read(s: State, v: nat) { v in s.readings && v <= s.clock }

  ghost predicate Inv(s: State) {
    && (s.since == 0 || Read(s, s.since))
    && (forall t :: t in s.threads ==> ThreadOk(s, s.threads[t]))
    && (forall d :: d in s.denials ==> DenialOk(s, d))
  }

  ghost predicate ThreadOk(s: State, th: Thread) {
    match th
    case FailStore(now) => Read(s, now)
    case CheckClock(_, since) => Read(s, since)
    case _ => true
  }

  ghost predicate DenialOk(s: State, d: Denial) { exists v :: v in s.readings && v <= d.at < v + d.cooldown }

  lemma NextKeepsThreads(s: State, a: Action)
    requires Inv(s)
    ensures var s' := Next(s, a);
            && s.clock <= s'.clock && s.readings <= s'.readings && (s'.since == 0 || Read(s', s'.since))
            && forall t :: t in s'.threads ==> ThreadOk(s', s'.threads[t])
  {
  }

  lemma NextKeepsInv(s: State, a: Action)
    requires Inv(s)
    ensures Inv(Next(s, a))
  {
    var s' := Next(s, a);
    NextKeepsThreads(s, a);
    forall d | d in s'.denials ensures DenialOk(s', d) {
      if d in s.denials {
        var v :| v in s.readings && v <= d.at < v + d.cooldown;
        assert v in s'.readings;
      } else {
        assert s.threads[a.t].since in s'.readings;
      }
    }
  }

  /** Under every interleaving, a backend is refused only within one cooldown of a clock value that
      some failure report read. */
  lemma {:induction false} DenialsAreTimely(s: State, actions: seq<Action>)
    requires Inv(s)
    ensures Inv(Run(s, actions))
    ensures forall d :: d in Run(s, actions).denials ==>
              exists v :: v in Run(s, actions).readings && v <= d.at < v + d.cooldown
    decreases |actions|
  {
    if actions != [] {
      NextKeepsInv(s, actions[0]);
      DenialsAreTimely(Next(s, actions[0]), actions[1..]);
    }
  }

  // ---------- When the mark survives ----------

  /** A failure report that found the backend healthy and has yet to store its mark. */
  predicate Marking(th: Thread) { th == FailCount(true) || th.FailClock? || th.FailStore? }

  predicate Reporting(th: Thread) { th.SuccessSwap? || th.SuccessCount? || th.SuccessClear? }

  ghost predicate SomeMarking(s: State) { exists t :: t in s.threads && Marking(s.threads[t]) }

  /** The clock is past zero, so no failure report has read the value that means "no mark". */
  ghost predicate Timed(s: State) {
    s.clock > 0 && forall t :: t in s.threads && s.threads[t].FailStore? ==> s.threads[t].now > 0
  }

  /** An unhealthy backend is marked, or about to be. */
  ghost predicate Tracked(s: State) { s.healthy || s.since != 0 || SomeMarking(s) }

  /** A success report clears the mark of a backend that a later failure has made unhealthy, with nobody
      left to mark it again. */
  ghost predicate LateClear(s: State, a: Action) {
    && a.Step? && a.t in s.threads && s.threads[a.t].SuccessClear?
    && !s.healthy && !SomeMarking(s)
  }

  predicate Recovers(s: State, a: Action) { a.Step? && a.t in s.threads && s.threads[a.t].SuccessSwap? }

  lemma NextKeepsTimed(s: State, a: Action)
    requires Timed(s)
    ensures Timed(Next(s, a))
  {
  }

  lemma MarkingGoesOn(s: State, a: Action, t: nat)
    requires Timed(s) && t in s.threads && Marking(s.threads[t])
    ensures Tracked(Next(s, a))
  {
    var s' := Next(s, a);
    assert t in s'.threads;
    assert Marking(s'.threads[t]) || s'.since != 0;
  }

  /** One step: an untracked state arises from a tracked one by a late clear alone, and only a recovery
      leaves it. */
  lemma TrackedStep(s: State, a: Action)
    requires Timed(s)
    ensures Tracked(s) ==> (Tracked(Next(s, a)) <==> !LateClear(s, a))
    ensures !Tracked(s) ==> (Tracked(Next(s, a)) <==> Recovers(s, a))
  {
    var s' := Next(s, a);
    if t :| t in s.threads && Marking(s.threads[t]) {
      MarkingGoesOn(s, a, t);
    } else {
      assert forall t :: t in s'.threads && Marking(s'.threads[t]) ==> s.healthy;
      if s.healthy && !s'.healthy {
        assert a.t in s'.threads && Marking(s'.threads[a.t]);
      }
    }
  }

  /** A late clear that no later recovery makes good. */
  ghost predicate LostAt(s: State, actions: seq<Action>, k: nat)
    requires k < |actions|
  {
    && LateClear(Run(s, actions[..k]), actions[k])
    && forall j :: k < j < |actions| ==> !Recovers(Run(s, actions[..j]), actions[j])
  }

  lemma {:induction false} RunSnoc(s: State, actions: seq<Action>)
    requires actions != []
    ensures Run(s, actions) == Next(Run(s, actions[..|actions| - 1]), actions[|actions| - 1])
    decreases |actions|
  {
    if |actions| == 1 {
      assert actions[..0] == [] && actions[1..] == [];
    } else {
      RunSnoc(Next(s, actions[0]), actions[1..]);
      assert actions[1..][..|actions| - 2] == actions[..|actions| - 1][1..];
    }
  }

  lemma {:induction false} RunKeepsTimed(s: State, actions: seq<Action>)
    requires Timed(s)
    ensures Timed(Run(s, actions))
    decreases |actions|
  {
    if actions != [] {
      NextKeepsTimed(s, actions[0]);
      RunKeepsTimed(Next(s, actions[0]), actions[1..]);
    }
  }

  lemma PrefixRuns(actions: seq<Action>, n: nat)
    requires n <= |actions|
    ensures forall k :: 0 <= k <= n ==> actions[..n][..k] == actions[..k]
  {
  }

  /** In every run with every interleaving, from any tracked state: the mark is lost at the end if and only
      if some success report cleared it after a later failure had stored it, and no success report has
      begun its update since. */
  lemma {:induction false} MarkLostIff(s: State, actions: seq<Action>)
    requires Timed(s) && Tracked(s)
    ensures !Tracked(Run(s, actions)) <==> exists k :: 0 <= k < |actions| && LostAt(s, actions, k)
    decreases |actions|
  {
    if actions != [] {
      var n := |actions| - 1;
      var init := actions[..n];
      var e := Run(s, init);
      MarkLostIff(s, init);
      RunKeepsTimed(s, init);
      RunSnoc(s, actions);
      TrackedStep(e, actions[n]);
      PrefixRuns(actions, n);
      forall k | 0 <= k < n ensures LostAt(s, actions, k) <==> LostAt(s, init, k) && !Recovers(e, actions[n]) {
        LostAtExtends(s, actions, k);
      }
      assert LostAt(s, actions, n) <==> LateClear(e, actions[n]);
      if !Tracked(Run(s, actions)) && !Tracked(e) {
        var k :| 0 <= k < |init| && LostAt(s, init, k);
        assert LostAt(s, actions, k);
      }
    }
  }

  lemma LostAtExtends(s: State, actions: seq<Action>, k: nat)
    requires k + 1 < |actions|
    ensures var n := |actions| - 1;
            LostAt(s, actions, k) <==> LostAt(s, actions[..n], k) && !Recovers(Run(s, actions[..n]), actions[n])
  {
    var n := |actions| - 1;
    PrefixRuns(actions, n);
    assert forall j :: 0 <= j < n ==> actions[..n][j] == actions[j];
  }

  predicate NoSuccess(actions: seq<Action>) {
    forall a :: a in actions ==> !(a.Spawn? && a.op.SuccessSwap?)
  }

  /** No success report is under way. */
  ghost predicate Calm(s: State) { forall t :: t in s.threads ==> !Reporting(s.threads[t]) }

  lemma CalmStep(s: State, a: Action)
    requires Timed(s) && Tracked(s) && Calm(s) && NoSuccess([a])
    ensures Timed(Next(s, a)) && Tracked(Next(s, a)) && Calm(Next(s, a))
  {
    assert a in [a];
    NextKeepsTimed(s, a);
    TrackedStep(s, a);
  }

  /** Without success reports the mark always survives, whatever failures and checks interleave. */
  lemma {:induction false} MarkSurvivesFailures(s: State, actions: seq<Action>)
    requires Timed(s) && Tracked(s) && Calm(s) && NoSuccess(actions)
    ensures var e := Run(s, actions); Timed(e) && Tracked(e) && Calm(e)
    decreases |actions|
  {
    if actions != [] {
      assert actions[0] in actions;
      CalmStep(s, actions[0]);
      MarkSurvivesFailures(Next(s, actions[0]), actions[1..]);
    }
  }

  // ---------- What the mark does ----------

  /** Marked at `m`, with no report under way that could change it; checks past their second load have
      read the mark. */
  ghost predicate Settled(s: State, m: nat) {
    && !s.healthy && s.since == m && 0 < m <= s.clock
    && forall t :: t in s.threads ==>
         && !Reporting(s.threads[t]) && !Marking(s.threads[t])
         && (s.threads[t].CheckClock? ==> s.threads[t].since == m)
  }

  /** Every check under way goes on to compare the clock with the mark, and is refused exactly within one
      cooldown of it. */
  ghost predicate Refuses(s: State, m: nat) {
    forall t :: t in s.threads ==>
      var s' := Next(s, Step(t));
      match s.threads[t]
      case CheckHealthy(c) => s'.threads[t] == CheckSince(c)
      case CheckSince(c) => s'.threads[t] == CheckClock(c, m)
      case CheckClock(c, _) => s'.denials == s.denials + (if s.clock < m + c then {Denial(s.clock, c)} else {})
      case _ => s'.denials == s.denials
  }

  lemma SettledStep(s: State, a: Action, m: nat)
    requires Settled(s, m) && !(a.Spawn? && a.op.SuccessSwap?)
    ensures Settled(Next(s, a), m)
  {
  }

  /** While no success is reported the mark stays where it is, and it refuses exactly within one cooldown,
      in every interleaving of further failures and checks. */
  lemma {:induction false} CooldownIsApplied(s: State, actions: seq<Action>, m: nat)
    requires Settled(s, m) && NoSuccess(actions)
    ensures Settled(Run(s, actions), m) && Refuses(Run(s, actions), m)
    decreases |actions|
  {
    if actions != [] {
      assert actions[0] in actions;
      SettledStep(s, actions[0], m);
      CooldownIsApplied(Next(s, actions[0]), actions[1..], m);
    }
  }

  ghost predicate Quiescent(s: State) { forall t :: t in s.threads ==> s.threads[t].Done? }

  /** In every run, at rest, an unhealthy backend either has lost its mark to a late clear or is settled on
      the clock value of a failure report, and then the cooldown counts from there. */
  lemma QuiescentBackend(s: State, actions: seq<Action>)
    requires Inv(s) && Timed(s) && Tracked(s) && Quiescent(Run(s, actions)) && !Run(s, actions).healthy
    ensures var e := Run(s, actions);
            if exists k :: 0 <= k < |actions| && LostAt(s, actions, k) then Unmarked(e)
            else e.since in e.readings && Settled(e, e.since)
  {
    var e := Run(s, actions);
    MarkLostIff(s, actions);
    DenialsAreTimely(s, actions);
  }

  // ---------- What interleaving loses ----------

  /** Unhealthy, but with the mark cleared, and no report in flight that would set it. */
  ghost predicate Unmarked(s: State) {
    && !s.healthy && s.since == 0
    && forall t :: t in s.threads ==> s.threads[t] in {Done, FailSwap, FailCount(false)} || Checking(s.threads[t])
  }

  predicate Checking(th: Thread) { th.CheckHealthy? || th.CheckSince? }

  /** A failure report that meets a healthy backend and runs alone, in a world where only it and `a` act. */
  lemma FailureStamps(s: State, a: nat, b: nat) returns (states: seq<State>)
    requires a != b && s.healthy && s.threads.Keys == {a}
    ensures |states| == 6 && states[0] == s && states[1] == Next(s, Spawn(b, FailSwap))
    ensures forall i :: 1 <= i < 5 ==> states[i + 1] == Next(states[i], Step(b))
    ensures !states[5].healthy && states[5].since == s.clock && states[5].threads == s.threads[b := Done]
  {
    var s1 := Next(s, Spawn(b, FailSwap));
    var s2 := Next(s1, Step(b));
    var s3 := Next(s2, Step(b));
    var s4 := Next(s3, Step(b));
    states := [s, s1, s2, s3, s4, Next(s4, Step(b))];
  }

  /** A slow success report interleaved with a failure report leaves the backend unhealthy with its
      mark cleared. */
  lemma RaceLosesMark(clock: nat, a: nat, b: nat)
    requires a != b
    ensures var run := [Spawn(a, SuccessSwap), Step(a), Step(a), Spawn(b, FailSwap), Step(b), Step(b), Step(b),
            Step(b), Step(a)];
            Unmarked(Run(Fresh(clock), run))
  {
    var run := [Spawn(a, SuccessSwap), Step(a), Step(a), Spawn(b, FailSwap), Step(b), Step(b), Step(b), Step(b),
      Step(a)];
    var s0 := Fresh(clock);
    var s1 := Next(s0, run[0]);
    var s2 := Next(s1, run[1]);
    var s3 := Next(s2, run[2]);
    assert s3.threads == map[a := SuccessClear];
    var fs := FailureStamps(s3, a, b);
    RunFrom(s0, run, 9, [s0, s1, s2] + fs + [Next(fs[5], Step(a))]);
  }

  /** A run through given states. */
  lemma {:induction false} RunFrom(s: State, run: seq<Action>, n: nat, states: seq<State>)
    requires n == |run| && |states| == n + 1 && states[0] == s
    requires forall i :: 0 <= i < n ==> states[i + 1] == Next(states[i], run[i])
    ensures Run(s, run) == states[n]
    decreases n
  {
    if n > 0 {
      assert states[1] == Next(s, run[0]);
      RunFrom(states[1], run[1..], n - 1, states[1..]);
    }
  }

  lemma UnmarkedPersists(s: State, a: Action)
    requires Unmarked(s) && !(a.Spawn? && a.op.SuccessSwap?)
    ensures Unmarked(Next(s, a)) && Next(s, a).denials == s.denials
  {
  }

  /** And it stays that way: until the next success, however many failures follow, the backend is
      never refused, so the cooldown is not applied at all. */
  lemma {:induction false} LostMarkDisablesCooldown(s: State, actions: seq<Action>)
    requires Unmarked(s) && NoSuccess(actions)
    ensures Unmarked(Run(s, actions)) && Run(s, actions).denials == s.denials
    decreases |actions|
  {
    if actions != [] {
      UnmarkedPersists(s, actions[0]);
      LostMarkDisablesCooldown(Next(s, actions[0]), actions[1..]);
    }
  }
}
