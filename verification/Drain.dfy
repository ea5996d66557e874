/** The accept loop of a stream listener with its connection limit, and the drain that follows
    shutdown, as a state machine over every interleaving with the spawned tasks. */
module Drain {
  import opened Text

  /** Milliseconds between two looks at the active counter while draining. */
  const TICK: nat := 100

  /** A spawned task, by what it has done: `_permit` is dropped after the counter is decremented. */
  datatype Task = Spawned | Running | Returned | Uncounted | Released

  datatype Exit = Drained | TimedOut | AcceptFailed

  datatype Loop =
    | Waiting
    | Admitted(conn: nat)
    | Counted(conn: nat)
    | Draining(start: nat, wake: nat)
    | Exited(why: Exit, start: nat, at: nat)

  /** `limit` is None for an unlimited listener.  `lag` bounds how late a due timer is served. */
  datatype State = State(
    limit: Option<nat>, timeout: nat, lag: nat,
    available: nat, counter: nat, tasks: map<nat, Task>, loop: Loop, cancelled: bool, clock: nat)

  datatype Action =
    | Accept(conn: nat)
    | AcceptError
    | CountTask
    | SpawnTask
    | TaskStep(conn: nat)
    | Cancel
    | Observe
    | Look
    | Advance(d: nat)

  function Advanced(t: Task): Task {
    match t
    case Spawned => Running
    case Running => Returned
    case Returned => Uncounted
    case _ => Released
  }

  function DoTaskStep(s: State, conn: nat): State
    requires conn in s.tasks && s.tasks[conn] != Released
  {
    var t := s.tasks[conn];
    var s' := s.(tasks := s.tasks[conn := Advanced(t)]);
    if t.Returned? then s'.(counter := if s.counter > 0 then s.counter - 1 else 0xFFFF_FFFF_FFFF_FFFF)
    else if t.Uncounted? && s.limit.Some? then s'.(available := s.available + 1)
    else s'
  }

  function DoLook(s: State): State
    requires s.loop.Draining?
  {
    var start := s.loop.start;
    if s.counter == 0 then s.(loop := Exited(Drained, start, s.clock))
    else if s.clock - start >= s.timeout then s.(loop := Exited(TimedOut, start, s.clock))
    else s.(loop := Draining(start, s.clock + TICK))
  }

  /** One step; an action that is not enabled changes nothing. */
  function Next(s: State, a: Action): State {
    match a
    case Accept(conn) =>
      if !s.loop.Waiting? || conn in s.tasks then s
      else if s.limit.None? then s.(loop := Admitted(conn))
      else if s.available == 0 then s
      else s.(loop := Admitted(conn), available := s.available - 1)
    case AcceptError => if s.loop.Waiting? then s.(loop := Exited(AcceptFailed, s.clock, s.clock)) else s
    case CountTask => if s.loop.Admitted? then s.(loop := Counted(s.loop.conn), counter := s.counter + 1) else s
    case SpawnTask => if s.loop.Counted? then s.(loop := Waiting, tasks := s.tasks[s.loop.conn := Spawned]) else s
    case TaskStep(conn) => if conn in s.tasks && s.tasks[conn] != Released then DoTaskStep(s, conn) else s
    case Cancel => s.(cancelled := true)
    case Observe => if s.loop.Waiting? && s.cancelled then s.(loop := Draining(s.clock, s.clock)) else s
    case Look => if s.loop.Draining? && s.clock >= s.loop.wake then DoLook(s) else s
    case Advance(d) =>
      if s.loop.Draining? && s.clock + d > s.loop.wake + s.lag then s else s.(clock := s.clock + d)
  }

  function Run(s: State, actions: seq<Action>): State
    decreases |actions|
  {
    if actions == [] then s else Run(Next(s, actions[0]), actions[1..])
  }

  /** A listener that has just started; `max_connections` 0 means unlimited. */
  function Listening(maxConnections: nat, timeout: nat, lag: nat, clock: nat): State {
    var limit := if maxConnections > 0 then Some(maxConnections) else None;
    State(limit, timeout, lag, maxConnections, 0, map[], Waiting, false, clock)
  }

  // ---------- Counting tasks ----------

  ghost predicate Holds(t: Task) { !t.Released? }
  ghost predicate Uncleared(t: Task) { t.Spawned? || t.Running? || t.Returned? }
  ghost predicate Handling(t: Task) { t == Running }

  ghost function Those(tasks: map<nat, Task>, p: Task -> bool): set<nat> {
    set c | c in tasks && p(tasks[c])
  }

  lemma ThoseUpdate(tasks: map<nat, Task>, c: nat, t: Task, p: Task -> bool)
    ensures |Those(tasks[c := t], p)| ==
            |Those(tasks, p)| - (if c in tasks && p(tasks[c]) then 1 else 0) + (if p(t) then 1 else 0)
  {
    var before, after := Those(tasks, p), Those(tasks[c := t], p);
    assert after - {c} == before - {c};
    RemoveSize(before, c);
    RemoveSize(after, c);
  }

  lemma RemoveSize(a: set<nat>, c: nat)
    ensures |a - {c}| == |a| - if c in a then 1 else 0
  {
    if c in a {
      assert a == (a - {c}) + {c};
    } else {
      assert a - {c} == a;
    }
  }

  lemma ThoseSubset(tasks: map<nat, Task>, p: Task -> bool, q: Task -> bool)
    requires forall t :: p(t) ==> q(t)
    ensures |Those(tasks, p)| <= |Those(tasks, q)|
  {
    SubsetSize(Those(tasks, p), Those(tasks, q));
  }

  lemma SubsetSize(a: set<nat>, b: set<nat>)
    requires a <= b
    ensures |a| <= |b|
  {
    assert b == a + (b - a);
  }

  /** Permits held by the loop's current connection. */
  ghost function Pending(l: Loop): nat { if l.Admitted? || l.Counted? then 1 else 0 }

  ghost predicate Inv(s: State) {
    // Permits are conserved.
    && (s.limit.Some? ==> s.available + |Those(s.tasks, Holds)| + Pending(s.loop) == s.limit.value)
    // The counter counts spawned tasks that have not decremented it.
    && s.counter == |Those(s.tasks, Uncleared)| + (if s.loop.Counted? then 1 else 0)
    && (s.loop.Admitted? || s.loop.Counted? ==> s.loop.conn !in s.tasks)
    // A drain that read zero found every handler returned.
    && (s.loop.Exited? && s.loop.why.Drained? ==> Those(s.tasks, Uncleared) == {})
    // The drain is on time.
    && (s.loop.Draining? ==>
          && s.loop.start <= s.loop.wake <= s.loop.start + s.timeout + 100
          && s.clock <= s.loop.wake + s.lag && s.loop.start <= s.clock)
    && (s.loop.Exited? ==> s.loop.at <= s.loop.start + s.timeout + 100 + s.lag)
    // And gives up only after the timeout.
    && (s.loop.Exited? && s.loop.why.TimedOut? ==> s.loop.at >= s.loop.start + s.timeout)
  }

  lemma TaskStepKeepsInv(s: State, conn: nat)
    requires Inv(s) && conn in s.tasks && s.tasks[conn] != Released
    ensures Inv(DoTaskStep(s, conn))
  {
    var t := s.tasks[conn];
    ThoseUpdate(s.tasks, conn, Advanced(t), Holds);
    ThoseUpdate(s.tasks, conn, Advanced(t), Uncleared);
    var s' := DoTaskStep(s, conn);
    assert forall c :: c in Those(s'.tasks, Uncleared) ==> c in Those(s.tasks, Uncleared);
  }

  lemma NextKeepsInv(s: State, a: Action)
    requires Inv(s)
    ensures Inv(Next(s, a))
  {
    match a
    case TaskStep(conn) =>
      if conn in s.tasks && s.tasks[conn] != Released { TaskStepKeepsInv(s, conn); }
    case SpawnTask =>
      if s.loop.Counted? {
        ThoseUpdate(s.tasks, s.loop.conn, Spawned, Holds);
        ThoseUpdate(s.tasks, s.loop.conn, Spawned, Uncleared);
      }
    case _ =>
  }

  lemma {:induction false} RunKeepsInv(s: State, actions: seq<Action>)
    requires Inv(s)
    ensures Inv(Run(s, actions))
    decreases |actions|
  {
    if actions != [] {
      NextKeepsInv(s, actions[0]);
      RunKeepsInv(Next(s, actions[0]), actions[1..]);
    }
  }

  lemma {:induction false} RunKeepsSettings(s: State, actions: seq<Action>)
    ensures var e := Run(s, actions); e.limit == s.limit && e.timeout == s.timeout && e.lag == s.lag
    decreases |actions|
  {
    if actions != [] { RunKeepsSettings(Next(s, actions[0]), actions[1..]); }
  }

  /** In every run of a listener started with `max` > 0: no more than `max` handlers run at once, and
      permits held plus permits available is always `max`. */
  lemma LimitIsRespected(max: nat, timeout: nat, lag: nat, clock: nat, actions: seq<Action>)
    requires max > 0
    ensures var e := Run(Listening(max, timeout, lag, clock), actions);
            && |Those(e.tasks, Handling)| <= max
            && e.available + |Those(e.tasks, Holds)| + Pending(e.loop) == max
  {
    var s := Listening(max, timeout, lag, clock);
    assert Those(s.tasks, Holds) == {} && Those(s.tasks, Uncleared) == {};
    RunKeepsInv(s, actions);
    RunKeepsSettings(s, actions);
    ThoseSubset(Run(s, actions).tasks, Handling, Holds);
  }

  /** In every run: a drain that reports all connections drained has every handler back; one that reports a
      timeout has waited for it; and the drain ends within the timeout plus one tick of 100 milliseconds plus
      the scheduler's lag. */
  lemma DrainIsSound(max: nat, timeout: nat, lag: nat, clock: nat, actions: seq<Action>)
    ensures var e := Run(Listening(max, timeout, lag, clock), actions);
            && (e.loop.Exited? && e.loop.why.Drained? ==>
                  forall c :: c in e.tasks ==> e.tasks[c].Uncounted? || e.tasks[c].Released?)
            && (e.loop.Exited? && e.loop.why.TimedOut? ==> e.loop.at >= e.loop.start + timeout)
            && (e.loop.Exited? ==> e.loop.at <= e.loop.start + timeout + 100 + lag)
            && (e.loop.Draining? ==> e.clock <= e.loop.start + timeout + 100 + lag)
  {
    var s := Listening(max, timeout, lag, clock);
    assert Those(s.tasks, Holds) == {} && Those(s.tasks, Uncleared) == {};
    RunKeepsInv(s, actions);
    RunKeepsSettings(s, actions);
    var e := Run(s, actions);
    if e.loop.Exited? && e.loop.why.Drained? {
      forall c | c in e.tasks ensures e.tasks[c].Uncounted? || e.tasks[c].Released? {
        assert c !in Those(e.tasks, Uncleared);
      }
    }
  }

  /** Why the listener stops, step by step: drained exactly at a due look that finds every handler back, timed
      out exactly at one that does not and comes after the timeout, failed exactly at an error of accept. */
  lemma ExitReasons(s: State, a: Action)
    requires Inv(s) && !s.loop.Exited?
    ensures var e := Next(s, a).loop;
            var look := a == Look && s.loop.Draining? && s.clock >= s.loop.wake;
            && (e.Exited? && e.why == Drained <==> look && Those(s.tasks, Uncleared) == {})
            && (e.Exited? && e.why == TimedOut <==>
                  look && Those(s.tasks, Uncleared) != {} && s.clock - s.loop.start >= s.timeout)
            && (e.Exited? && e.why == AcceptFailed <==> a == AcceptError && s.loop.Waiting?)
  {
  }

  /** A look that does not stop the drain is repeated 100 milliseconds later. */
  lemma LooksAgain(s: State)
    requires Inv(s) && s.loop.Draining? && s.clock >= s.loop.wake
    requires Those(s.tasks, Uncleared) != {} && s.clock - s.loop.start < s.timeout
    ensures Next(s, Look) == s.(loop := Draining(s.loop.start, s.clock + 100))
  {
  }

  /** A new listener: `max_connections` 0 admits every connection, a positive number that many at once. */
  lemma AdmitsAtStart(max: nat, timeout: nat, lag: nat, clock: nat, conn: nat)
    ensures var s := Listening(max, timeout, lag, clock);
            && Inv(s) && s.timeout == timeout && s.lag == lag && !s.cancelled
            && (s.limit.Some? <==> max != 0) && (max != 0 ==> s.limit == Some(max))
            && Next(s, Accept(conn)).loop == Admitted(conn)
  {
    var s := Listening(max, timeout, lag, clock);
    assert Those(s.tasks, Holds) == {} && Those(s.tasks, Uncleared) == {};
  }

  /** Once the loop has left for the drain, no run starts another task. */
  lemma {:induction false} NoTaskAfterDrainBegins(s: State, actions: seq<Action>)
    requires s.loop.Draining? || s.loop.Exited?
    ensures var e := Run(s, actions); e.tasks.Keys == s.tasks.Keys && (e.loop.Draining? || e.loop.Exited?)
    decreases |actions|
  {
    if actions != [] {
      assert Next(s, actions[0]).tasks.Keys == s.tasks.Keys;
      NoTaskAfterDrainBegins(Next(s, actions[0]), actions[1..]);
    }
  }

  // ---------- What cancellation alone leaves possible ----------

  predicate BeforeDrain(l: Loop) { l.Waiting? || l.Admitted? || l.Counted? }

  lemma {:induction false} RunConcat(s: State, x: seq<Action>, y: seq<Action>)
    ensures Run(s, x + y) == Run(Run(s, x), y)
    decreases |x|
  {
    if x == [] {
      assert x + y == y;
    } else {
      assert (x + y)[1..] == x[1..] + y;
      RunConcat(Next(s, x[0]), x[1..], y);
    }
  }

  lemma RunOne(s: State, a: Action)
    ensures Run(s, [a]) == Next(s, a)
  {
    assert [a][1..] == [];
  }

  /** Some connection has a number of its own. */
  lemma {:induction false} UnusedNumber(used: set<nat>) returns (n: nat)
    ensures forall c :: c in used ==> c < n
  {
    n := 0;
    if c :| c in used {
      var m := UnusedNumber(used - {c});
      n := if m > c then m else c + 1;
      assert forall x :: x in used ==> x == c || x in used - {c};
    }
  }

  /** How many steps a task is from giving its permit back. */
  function StepsLeft(t: Task): nat {
    match t
    case Spawned => 4
    case Running => 3
    case Returned => 2
    case Uncounted => 1
    case Released => 0
  }

  /** A task goes through all its stages, one step each. */
  lemma OneStageAtATime(t: Task)
    requires !t.Released?
    ensures StepsLeft(Advanced(t)) == StepsLeft(t) - 1
  {
  }

  /** A task that runs on alone gives its permit back. */
  lemma {:induction false} TaskReleases(s: State, c: nat) returns (actions: seq<Action>)
    requires s.loop.Waiting? && s.limit.Some? && c in s.tasks && !s.tasks[c].Released?
    ensures var e := Run(s, actions);
            e.loop == s.loop && e.limit == s.limit && e.tasks.Keys == s.tasks.Keys && e.available > 0
    decreases StepsLeft(s.tasks[c])
  {
    var s' := Next(s, TaskStep(c));
    RunOne(s, TaskStep(c));
    if s.tasks[c].Uncounted? {
      actions := [TaskStep(c)];
    } else {
      var rest := TaskReleases(s', c);
      actions := [TaskStep(c)] + rest;
      RunConcat(s, [TaskStep(c)], rest);
    }
  }

  /** A waiting loop can admit a connection, at once or after some handler has returned. */
  lemma WaitingAdmits(s: State) returns (actions: seq<Action>)
    requires Inv(s) && s.loop.Waiting? && (s.limit.Some? ==> s.limit.value > 0)
    ensures var e := Run(s, actions); e.loop.Admitted? && e.loop.conn !in s.tasks && e.tasks.Keys == s.tasks.Keys
  {
    var n := UnusedNumber(s.tasks.Keys);
    var pre := [];
    if s.limit.Some? && s.available == 0 {
      var c := HolderExists(s);
      pre := TaskReleases(s, c);
    }
    var e := Run(s, pre);
    actions := pre + [Accept(n)];
    RunConcat(s, pre, [Accept(n)]);
    RunOne(e, Accept(n));
  }

  lemma HolderExists(s: State) returns (c: nat)
    requires Inv(s) && s.loop.Waiting? && s.limit.Some? && s.limit.value > 0 && s.available == 0
    ensures c in s.tasks && !s.tasks[c].Released?
  {
    assert Those(s.tasks, Holds) != {};
    c :| c in Those(s.tasks, Holds);
  }

  /** Anything the loop has taken on it also starts. */
  lemma TakenIsStarted(s: State) returns (actions: seq<Action>)
    requires (s.loop.Admitted? || s.loop.Counted?) && s.loop.conn !in s.tasks
    ensures s.loop.conn in Run(s, actions).tasks
  {
    if s.loop.Admitted? {
      actions := [CountTask] + [SpawnTask];
      RunConcat(s, [CountTask], [SpawnTask]);
      RunOne(s, CountTask);
      RunOne(Next(s, CountTask), SpawnTask);
    } else {
      actions := [SpawnTask];
      RunOne(s, SpawnTask);
    }
  }

  /** The exact condition: from a cancelled state some run still starts a task if and only if the loop has
      not yet left for the drain.  `select!` may take another connection although the token is cancelled, a
      full listener included once a handler has returned. */
  lemma CancelledMayStartIff(s: State)
    requires Inv(s) && s.cancelled && (s.limit.Some? ==> s.limit.value > 0)
    ensures (exists actions :: Run(s, actions).tasks.Keys != s.tasks.Keys) <==> BeforeDrain(s.loop)
  {
    if s.loop.Waiting? {
      var pre := WaitingAdmits(s);
      var e := Run(s, pre);
      RunKeepsInv(s, pre);
      var post := TakenIsStarted(e);
      RunConcat(s, pre, post);
      assert e.loop.conn in Run(s, pre + post).tasks;
    } else if BeforeDrain(s.loop) {
      var actions := TakenIsStarted(s);
      assert s.loop.conn in Run(s, actions).tasks;
    } else {
      forall actions ensures Run(s, actions).tasks.Keys == s.tasks.Keys { NoTaskAfterDrainBegins(s, actions); }
    }
  }
}
