/** What one attempt does to the Lease, and that a leader that attempts in time stays leader. */
module LeaseRenewal {
  import opened Text
  import opened LeaderElection

  // ---------- One attempt ----------

  /** The state after an undisturbed attempt of `r` that was granted: its window starts now and lasts the
      configured duration, while the Lease stores whole seconds. */
  ghost function Granted(s: State, r: Id, transitions: int, holders: seq<Option<Id>>, base: int): State
    requires r in s.replicas
  {
    var me := s.replicas[r];
    State(
      Some(Lease(Some(r), Some(AsI32(me.duration / 1_000_000)), Some(s.clock), Some(transitions))),
      s.version + 1, s.clock, s.replicas[r := Replica(me.duration, Answered(true), me.leader, me.attempts)],
      s.grants + [Grant(r, s.clock, s.clock + me.duration)], holders, base)
  }

  /** The stored seconds: the duration's whole seconds modulo 2^32, as a signed number. */
  lemma StoredExactly(n: nat)
    ensures -0x8000_0000 <= AsI32(n) < 0x8000_0000
    ensures exists k: int :: n - AsI32(n) == k * 0x1_0000_0000
  {
    var k := if n % 0x1_0000_0000 < 0x8000_0000 then n / 0x1_0000_0000 else n / 0x1_0000_0000 + 1;
    assert n - AsI32(n) == k * 0x1_0000_0000;
  }

  /** No renewal is recorded, or more than the stored duration has passed since; 15 seconds if none is
      stored. */
  ghost predicate RunOut(l: Lease, clock: int) {
    l.renew.None? || clock > l.renew.value + l.durationSecs.Or(15) * 1_000_000
  }

  /** The holder's own attempt always renews, expired or not, and is no transition. */
  lemma RenewalWins(cas: bool, s: State, r: Id)
    requires r in s.replicas && s.replicas[r].phase.Idle? && s.lease.Some? && s.lease.value.holder == Some(r)
    ensures Run(cas, s, Attempt(r))
            == Granted(s, r, s.lease.value.transitions.Or(0), s.holders + [Some(r)], s.base)
  {
    RunFour(cas, s, Begin(r), Get(r), Stamp(r), Write(r));
  }

  /** An absent Lease is created, with no transition counted. */
  lemma CreationWins(cas: bool, s: State, r: Id)
    requires r in s.replicas && s.replicas[r].phase.Idle? && s.lease.None?
    ensures Run(cas, s, Attempt(r)) == Granted(s, r, 0, [Some(r)], 0)
  {
    RunFour(cas, s, Begin(r), Get(r), Stamp(r), Write(r));
  }

  /** Somebody else's Lease is taken over if and only if it has run out; otherwise the attempt is answered no
      and nothing else changes. */
  lemma TakeOverIffRunOut(cas: bool, s: State, r: Id)
    requires r in s.replicas && s.replicas[r].phase.Idle? && s.lease.Some? && s.lease.value.holder != Some(r)
    ensures Run(cas, s, Attempt(r)) ==
            if RunOut(s.lease.value, s.clock)
            then Granted(s, r, s.lease.value.transitions.Or(0) + 1, s.holders + [Some(r)], s.base)
            else s.(replicas := s.replicas[r := s.replicas[r].(phase := Answered(false))])
  {
    RunFour(cas, s, Begin(r), Get(r), Stamp(r), Write(r));
  }

  /** The answer becomes the flag the controller reads, and the replica is at rest again. */
  lemma AnswerIsReported(cas: bool, s: State, r: Id, won: bool)
    requires r in s.replicas && s.replicas[r].phase == Answered(won)
    ensures Step(cas, s, Finish(r)) ==
            s.(replicas := s.replicas[r := Replica(s.replicas[r].duration, Idle, won, s.replicas[r].attempts + 1)])
  {
  }

  /** An attempt that fails, at whatever point, lowers the flag and leaves the Lease alone. */
  lemma FailureLowersFlag(cas: bool, s: State, r: Id)
    requires r in s.replicas && s.replicas[r].phase != Idle
    ensures Step(cas, s, Fail(r)) ==
            s.(replicas := s.replicas[r := Replica(s.replicas[r].duration, Idle, false, s.replicas[r].attempts + 1)])
  {
  }

  // ---------- Staying leader ----------

  /** The steps of an attempt, in order. */
  ghost function AttemptStep(h: Id, i: nat): Action
    requires i < 5
  {
    [Begin(h), Get(h), Stamp(h), Write(h), Finish(h)][i]
  }

  ghost function Next(i: nat): nat { if i == 4 then 0 else i + 1 }

  /** The write of the attempt makes its own stamp the last written one. */
  ghost function Age(i: nat, age: nat, pending: nat): nat { if i == 3 then pending else age }

  ghost function Pending(i: nat, pending: nat): nat { if i == 2 then 0 else pending }

  /** A schedule in which `h` makes attempt after attempt, each written before `limit` has passed since the
      stamp of the one before, while every other replica and time do what they like.  `i` steps of the current
      attempt are done; `age` is the time since the last written stamp, `pending` the time since the stamp of
      this attempt. */
  ghost predicate Punctual(h: Id, limit: int, i: nat, age: nat, pending: nat, actions: seq<Action>)
    requires i < 5
    decreases |actions|
  {
    && age <= limit
    && (actions != [] ==>
          var a, rest := actions[0], actions[1..];
          if a.Delete? then false
          else if a.Advance? then Punctual(h, limit, i, age + a.d, pending + a.d, rest)
          else if a.r != h then Punctual(h, limit, i, age, pending, rest)
          else a == AttemptStep(h, i) && Punctual(h, limit, Next(i), Age(i, age, pending), Pending(i, pending), rest))
  }

  /** Where `h` stands after `i` steps of its attempt. */
  ghost predicate AtStep(s: State, h: Id, i: nat, pending: nat)
    requires h in s.replicas && s.lease.Some?
  {
    match s.replicas[h].phase
    case Idle => i == 0
    case Started(_) => i == 1
    case Updating(l, v, _) => i == 2 && v == s.version
    case UpdateReady(l, v, _, stamp) => i == 3 && v == s.version && stamp == s.clock - pending
    case Answered(won) => i == 4 && won
    case _ => false
  }

  /** `h` holds a Lease of its own making, renewed `age` ago, and is `i` steps into an attempt. */
  ghost predicate Holding(s: State, h: Id, limit: int, i: nat, age: nat, pending: nat) {
    && HeldBy(s, h) && h in s.replicas && limit == StoredSeconds(s.replicas[h].duration) * SECOND
    && s.lease.value.renew == Some(s.clock - age)
    && s.lease.value.durationSecs == Some(StoredSeconds(s.replicas[h].duration))
    && AtStep(s, h, i, pending)
  }

  /** The flag of `h` is up from its first completed attempt on. */
  ghost predicate Leads(s: State, e: State, h: Id)
    requires h in s.replicas
  {
    && h in e.replicas && s.replicas[h].attempts <= e.replicas[h].attempts
    && (s.replicas[h].leader || s.replicas[h].attempts < e.replicas[h].attempts ==> e.replicas[h].leader)
  }

  lemma HoldingUnexpired(s: State, h: Id, limit: int, i: nat, age: nat, pending: nat)
    requires Holding(s, h, limit, i, age, pending) && age <= limit
    ensures Unexpired(s)
  {
  }

  lemma OwnStepHolds(cas: bool, s: State, h: Id, limit: int, i: nat, age: nat, pending: nat)
    requires i < 5 && Holding(s, h, limit, i, age, pending) && age <= limit
    ensures var s' := Step(cas, s, AttemptStep(h, i));
            && Holding(s', h, limit, Next(i), Age(i, age, pending), Pending(i, pending))
            && Leads(s, s', h)
  {
    HolderStep(cas, s, AttemptStep(h, i), h);
  }

  lemma ForeignStepHolds(cas: bool, s: State, a: Action, h: Id, limit: int, i: nat, age: nat, pending: nat)
    requires i < 5 && Holding(s, h, limit, i, age, pending) && age <= limit
    requires !a.Delete? && !a.Advance? && a.r != h
    ensures Holding(Step(cas, s, a), h, limit, i, age, pending) && Leads(s, Step(cas, s, a), h)
  {
    HolderStep(cas, s, a, h);
    if a.r in s.replicas { OtherStep(cas, s, a, h); OtherKeepsVersion(cas, s, a, h); }
  }

  lemma OtherKeepsVersion(cas: bool, s: State, a: Action, h: Id)
    requires HeldBy(s, h) && Unexpired(s) && !a.Advance? && !a.Delete? && a.r != h && a.r in s.replicas
    ensures Step(cas, s, a).version == s.version
  {
    assert Waiting(s.replicas[a.r].phase, s.clock);
  }

  lemma AdvanceHolds(cas: bool, s: State, d: nat, h: Id, limit: int, i: nat, age: nat, pending: nat)
    requires Holding(s, h, limit, i, age, pending) && age <= limit
    ensures Holding(Step(cas, s, Advance(d)), h, limit, i, age + d, pending + d)
    ensures Leads(s, Step(cas, s, Advance(d)), h)
  {
    HoldingUnexpired(s, h, limit, i, age, pending);
    HolderStep(cas, s, Advance(d), h);
  }

  /** In every punctual schedule, whatever the others do and whether or not writes conflict, the Lease never
      expires, the holder never changes, its flag stays up from its first completed attempt on, and every
      other flag is down from that replica's next completed attempt on. */
  lemma {:induction false} PunctualLeaderStays(
    cas: bool, s: State, h: Id, limit: int, i: nat, age: nat, pending: nat, actions: seq<Action>)
    requires i < 5 && Holding(s, h, limit, i, age, pending) && Punctual(h, limit, i, age, pending, actions)
    ensures RenewedInTime(cas, s, actions)
    ensures HeldBy(Run(cas, s, actions), h) && OthersStandDown(s, Run(cas, s, actions), h)
    ensures Leads(s, Run(cas, s, actions), h)
    decreases |actions|
  {
    HoldingUnexpired(s, h, limit, i, age, pending);
    if actions != [] {
      var a, rest := actions[0], actions[1..];
      if a.Advance? {
        AdvanceHolds(cas, s, a.d, h, limit, i, age, pending);
        PunctualLeaderStays(cas, Step(cas, s, a), h, limit, i, age + a.d, pending + a.d, rest);
      } else if a.r != h {
        ForeignStepHolds(cas, s, a, h, limit, i, age, pending);
        PunctualLeaderStays(cas, Step(cas, s, a), h, limit, i, age, pending, rest);
      } else {
        OwnStepHolds(cas, s, h, limit, i, age, pending);
        PunctualLeaderStays(
          cas, Step(cas, s, a), h, limit, Next(i), Age(i, age, pending), Pending(i, pending), rest);
      }
      HolderKeepsLease(cas, s, actions, h);
    }
  }
}
