/** Leader election over one shared Lease, as a protocol of interleaved steps.

    Every replica runs attempts: read the clock and get the Lease, decide from that snapshot, read
    the clock again, create or patch, report.  All of these interleave with the other replicas' steps,
    with the passage of time and with deletion of the Lease.  `cas` says whether a patch conflicts
    when the object changed since it was read; the merge patch the code sends carries no resource
    version, so `cas` is an assumption about the API server, and both settings are studied. */
module LeaderElection {
  import opened Text

  /** Times are integer microseconds, the resolution of MicroTime. */
  const SECOND := 1_000_000

  type Id = string

  datatype Lease = Lease(holder: Option<Id>, durationSecs: Option<int>, renew: Option<int>, transitions: Option<int>)

  datatype Phase =
    | Idle
    | Started(now: int)
    | Creating
    | CreateReady(stamp: int)
    | Updating(snapshot: Lease, version: nat, now: int)
    | UpdateReady(snapshot: Lease, version: nat, now: int, stamp: int)
    | Answered(won: bool)

  /** `duration` is the configured lease duration, `leader` the flag the controller reads. */
  datatype Replica = Replica(duration: nat, phase: Phase, leader: bool, attempts: nat)

  /** The validity window a successful write reports to its replica. */
  datatype Grant = Grant(holder: Id, renew: int, expires: int)

  /** `grants` records every successful write of the run.  `holders` lists the holders of the current
      Lease object since it appeared, and `base` its transition count at that moment. */
  datatype State = State(
    lease: Option<Lease>, version: nat, clock: int, replicas: map<Id, Replica>,
    grants: seq<Grant>, holders: seq<Option<Id>>, base: int)

  datatype Action =
    | Begin(r: Id)
    | Get(r: Id)
    | Stamp(r: Id)
    | Write(r: Id)
    | Finish(r: Id)
    | Fail(r: Id)
    | Advance(d: nat)
    | Delete

  // ---------- The code's decisions ----------

  /** Rust's `as i32` on a number of seconds. */
  function AsI32(n: nat): int {
    var low := n % 0x1_0000_0000;
    if low < 0x8000_0000 then low else low - 0x1_0000_0000
  }

  function StoredSeconds(duration: nat): int { AsI32(duration / SECOND) }

  function Expiry(l: Lease): Option<int> {
    match l.renew
    case Some(t) => Some(t + l.durationSecs.Or(15) * SECOND)
    case None => None
  }

  predicate Expired(l: Lease, now: int) {
    Expiry(l).None? || now > Expiry(l).value
  }

  predicate MayWrite(l: Lease, me: Id, now: int) {
    l.holder == Some(me) || Expired(l, now)
  }

  function Renewed(me: Id, duration: nat, stamp: int, transitions: int): Lease {
    Lease(Some(me), Some(StoredSeconds(duration)), Some(stamp), Some(transitions))
  }

  function NextTransitions(l: Lease, me: Id): int {
    l.transitions.Or(0) + if l.holder == Some(me) then 0 else 1
  }

  // ---------- Steps ----------

  function SetPhase(s: State, r: Id, p: Phase): State
    requires r in s.replicas
  {
    s.(replicas := s.replicas[r := s.replicas[r].(phase := p)])
  }

  function Complete(s: State, r: Id, leader: bool): State
    requires r in s.replicas
  {
    var me := s.replicas[r];
    s.(replicas := s.replicas[r := Replica(me.duration, Idle, leader, me.attempts + 1)])
  }

  function DoGet(s: State, r: Id): State
    requires r in s.replicas && s.replicas[r].phase.Started?
  {
    var now := s.replicas[r].phase.now;
    match s.lease
    case None => SetPhase(s, r, Creating)
    case Some(l) =>
      if MayWrite(l, r, now) then SetPhase(s, r, Updating(l, s.version, now))
      else SetPhase(s, r, Answered(false))
  }

  function DoCreate(s: State, r: Id): State
    requires r in s.replicas && s.replicas[r].phase.CreateReady?
  {
    var me := s.replicas[r];
    var stamp := me.phase.stamp;
    if s.lease.Some? then SetPhase(s, r, Answered(false))
    else
      SetPhase(s, r, Answered(true)).(
        lease := Some(Renewed(r, me.duration, stamp, 0)),
        version := s.version + 1,
        grants := s.grants + [Grant(r, stamp, stamp + me.duration)],
        holders := [Some(r)],
        base := 0)
  }

  function DoPatch(cas: bool, s: State, r: Id): State
    requires r in s.replicas && s.replicas[r].phase.UpdateReady?
  {
    var me := s.replicas[r];
    var UpdateReady(snapshot, version, _, stamp) := me.phase;
    if s.lease.None? then Complete(s, r, false)
    else if cas && version != s.version then SetPhase(s, r, Answered(false))
    else
      SetPhase(s, r, Answered(true)).(
        lease := Some(Renewed(r, me.duration, stamp, NextTransitions(snapshot, r))),
        version := s.version + 1,
        grants := s.grants + [Grant(r, stamp, stamp + me.duration)],
        holders := s.holders + [Some(r)])
  }

  /** One step; an action that is not enabled changes nothing. */
  function Step(cas: bool, s: State, a: Action): State {
    match a
    case Advance(d) => s.(clock := s.clock + d)
    case Delete => s.(lease := None, version := s.version + 1, holders := [])
    case Begin(r) =>
      if r in s.replicas && s.replicas[r].phase.Idle? then SetPhase(s, r, Started(s.clock)) else s
    case Get(r) =>
      if r in s.replicas && s.replicas[r].phase.Started? then DoGet(s, r) else s
    case Stamp(r) =>
      if r !in s.replicas then s
      else (match s.replicas[r].phase
            case Creating => SetPhase(s, r, CreateReady(s.clock))
            case Updating(l, v, now) => SetPhase(s, r, UpdateReady(l, v, now, s.clock))
            case _ => s)
    case Write(r) =>
      if r !in s.replicas then s
      else if s.replicas[r].phase.CreateReady? then DoCreate(s, r)
      else if s.replicas[r].phase.UpdateReady? then DoPatch(cas, s, r)
      else s
    case Finish(r) =>
      if r in s.replicas && s.replicas[r].phase.Answered? then Complete(s, r, s.replicas[r].phase.won) else s
    case Fail(r) =>
      if r in s.replicas && !s.replicas[r].phase.Idle? then Complete(s, r, false) else s
  }

  function Run(cas: bool, s: State, actions: seq<Action>): State
    decreases |actions|
  {
    if actions == [] then s else Run(cas, Step(cas, s, actions[0]), actions[1..])
  }

  /** Replicas are at rest; the Lease is absent or holds anything whatever. */
  ghost predicate Init(s: State) {
    && (forall r :: r in s.replicas ==> s.replicas[r].phase == Idle)
    && s.grants == []
    && (s.lease.None? ==> s.holders == [])
    && (s.lease.Some? ==> s.holders == [s.lease.value.holder] && s.base == s.lease.value.transitions.Or(0))
  }

  // ---------- Safety with conflicting writes ----------

  /** A stored duration that means the same as the reported one. */
  predicate ExactDuration(duration: nat) { StoredSeconds(duration) * SECOND == duration }

  lemma ExactDurationIsWholeSeconds(duration: nat)
    ensures ExactDuration(duration) <==> duration % SECOND == 0 && duration / SECOND < 0x8000_0000
  {
  }

  ghost predicate ExactDurations(s: State) {
    forall r :: r in s.replicas ==> ExactDuration(s.replicas[r].duration)
  }

  /** Windows of different holders never overlap. */
  ghost predicate DisjointWindows(grants: seq<Grant>) {
    forall i, j :: 0 <= i < j < |grants| && grants[i].holder != grants[j].holder ==> grants[i].expires < grants[j].renew
  }

  function Changes(holders: seq<Option<Id>>): nat {
    if |holders| < 2 then 0
    else
      var n := |holders| - 1;
      Changes(holders[..n]) + if holders[n] == holders[n - 1] then 0 else 1
  }

  ghost predicate CountsTransitions(s: State) {
    s.lease.Some? ==>
      && s.holders != []
      && s.holders[|s.holders| - 1] == s.lease.value.holder
      && s.lease.value.transitions.Or(0) == s.base + Changes(s.holders)
  }

  /** A window of `r` may begin at `t`: every other holder's window has ended. */
  ghost predicate ClearFor(grants: seq<Grant>, r: Id, t: int) {
    forall i :: 0 <= i < |grants| ==> grants[i].holder == r || grants[i].expires < t
  }

  /** Whoever creates the Lease next starts a window of its own. */
  ghost predicate MayCreate(s: State) {
    forall r :: r in s.replicas ==>
      && ClearFor(s.grants, r, s.clock)
      && (s.replicas[r].phase.CreateReady? ==> ClearFor(s.grants, r, s.replicas[r].phase.stamp))
  }

  /** Every deletion of the run happens when the next creation cannot overlap. */
  ghost predicate SafeDeletes(cas: bool, s: State, actions: seq<Action>)
    decreases |actions|
  {
    actions != [] ==>
      (actions[0].Delete? ==> MayCreate(s)) && SafeDeletes(cas, Step(cas, s, actions[0]), actions[1..])
  }

  /** The last grant is what the Lease says, and every earlier window ended in time. */
  ghost predicate LeaseMatchesGrants(s: State) {
    s.grants != [] && s.lease.Some? ==>
      var g := s.grants[|s.grants| - 1];
      && s.lease.value.holder == Some(g.holder)
      && s.lease.value.renew == Some(g.renew)
      && Expiry(s.lease.value) == Some(g.expires)
      && g.renew <= s.clock
      && g.holder in s.replicas && g.expires == g.renew + s.replicas[g.holder].duration
      && (forall i :: 0 <= i < |s.grants| ==>
            if s.grants[i].holder == g.holder then s.grants[i].expires <= g.expires
            else s.grants[i].expires < g.renew)
  }

  /** A replica's own earlier windows began, and so end, no later than one that begins at `t`. */
  ghost predicate OwnGrantsBefore(s: State, r: Id, t: int) {
    forall i :: 0 <= i < |s.grants| && s.grants[i].holder == r ==>
      s.grants[i].renew <= t && r in s.replicas && s.grants[i].expires == s.grants[i].renew + s.replicas[r].duration
  }

  /** What a replica remembers is not newer than the clock, and still true while the version stands. */
  ghost predicate PhaseOk(s: State, r: Id, p: Phase) {
    match p
    case Started(now) => now <= s.clock
    case CreateReady(stamp) =>
      stamp <= s.clock && OwnGrantsBefore(s, r, stamp) && (s.lease.None? ==> ClearFor(s.grants, r, stamp))
    case Updating(l, v, now) =>
      now <= s.clock && v <= s.version && MayWrite(l, r, now) && (v == s.version ==> s.lease == Some(l))
    case UpdateReady(l, v, now, stamp) =>
      && now <= stamp <= s.clock && v <= s.version && MayWrite(l, r, now)
      && (v == s.version ==> s.lease == Some(l) && (s.grants != [] ==> s.grants[|s.grants| - 1].renew <= stamp))
    case _ => true
  }

  ghost predicate Inv(s: State) {
    && ExactDurations(s)
    && (forall r :: r in s.replicas ==> OwnGrantsBefore(s, r, s.clock))
    && (s.lease.None? ==> forall r :: r in s.replicas ==> ClearFor(s.grants, r, s.clock))
    && DisjointWindows(s.grants)
    && CountsTransitions(s)
    && LeaseMatchesGrants(s)
    && (forall r :: r in s.replicas ==> PhaseOk(s, r, s.replicas[r].phase))
  }

  /** A creation starts its window after every other holder's has ended. */
  lemma CreateExtendsGrants(s: State, r: Id)
    requires Inv(s) && s.lease.None? && r in s.replicas && s.replicas[r].phase.CreateReady?
    ensures LeaseMatchesGrants(DoCreate(s, r)) && DisjointWindows(DoCreate(s, r).grants)
  {
    var s' := DoCreate(s, r);
    var g := s'.grants[|s.grants|];
    assert PhaseOk(s, r, s.replicas[r].phase);
    assert Expiry(s'.lease.value) == Some(g.expires);
  }

  /** A patch that did not conflict does, too. */
  lemma PatchExtendsGrants(s: State, r: Id)
    requires Inv(s) && s.lease.Some? && r in s.replicas && s.replicas[r].phase.UpdateReady?
    requires s.replicas[r].phase.version == s.version
    ensures LeaseMatchesGrants(DoPatch(true, s, r)) && DisjointWindows(DoPatch(true, s, r).grants)
  {
    var s' := DoPatch(true, s, r);
    var p := s.replicas[r].phase;
    var g := s'.grants[|s.grants|];
    assert PhaseOk(s, r, p);
    assert Expiry(s'.lease.value) == Some(g.expires);
    forall i | 0 <= i < |s.grants|
      ensures if s.grants[i].holder == r then s.grants[i].expires <= g.expires else s.grants[i].expires < g.renew
    {
      var last := s.grants[|s.grants| - 1];
      assert last.holder != r ==> last.expires < p.now;
    }
  }

  lemma PatchCountsTransitions(s: State, r: Id)
    requires Inv(s) && s.lease.Some? && r in s.replicas && s.replicas[r].phase.UpdateReady?
    requires s.replicas[r].phase.version == s.version
    ensures CountsTransitions(DoPatch(true, s, r))
  {
    assert DoPatch(true, s, r).holders[..|s.holders|] == s.holders;
  }

  /** The state after a successful write of `r`. */
  function Written(s: State, r: Id, lease: Lease, stamp: int, holders: seq<Option<Id>>, base: int): State
    requires r in s.replicas
  {
    SetPhase(s, r, Answered(true)).(
      lease := Some(lease), version := s.version + 1,
      grants := s.grants + [Grant(r, stamp, stamp + s.replicas[r].duration)], holders := holders, base := base)
  }

  /** A write leaves what the other replicas remember true: it raises the version. */
  lemma WriteKeepsPhases(s: State, r: Id, lease: Lease, stamp: int, holders: seq<Option<Id>>, base: int)
    requires Inv(s) && r in s.replicas && stamp <= s.clock
    ensures var s' := Written(s, r, lease, stamp, holders, base);
            forall q :: q in s'.replicas ==> PhaseOk(s', q, s'.replicas[q].phase) && OwnGrantsBefore(s', q, s'.clock)
  {
    var s' := Written(s, r, lease, stamp, holders, base);
    forall q | q in s'.replicas ensures PhaseOk(s', q, s'.replicas[q].phase) && OwnGrantsBefore(s', q, s'.clock) {
      assert PhaseOk(s, q, s.replicas[q].phase) && OwnGrantsBefore(s, q, s.clock);
    }
  }

  lemma WinningCreateKeepsInv(s: State, r: Id)
    requires Inv(s) && s.lease.None? && r in s.replicas && s.replicas[r].phase.CreateReady?
    ensures Inv(DoCreate(s, r))
  {
    var me, s' := s.replicas[r], DoCreate(s, r);
    assert PhaseOk(s, r, me.phase);
    CreateExtendsGrants(s, r);
    WriteKeepsPhases(s, r, s'.lease.value, me.phase.stamp, [Some(r)], 0);
    assert s' == Written(s, r, s'.lease.value, me.phase.stamp, [Some(r)], 0);
  }

  lemma CreateKeepsInv(s: State, r: Id)
    requires Inv(s) && r in s.replicas && s.replicas[r].phase.CreateReady?
    ensures Inv(DoCreate(s, r))
  {
    if s.lease.Some? { PhaseKeepsInv(s, r, Answered(false)); } else { WinningCreateKeepsInv(s, r); }
  }

  lemma WinningPatchKeepsInv(s: State, r: Id)
    requires Inv(s) && s.lease.Some? && r in s.replicas && s.replicas[r].phase.UpdateReady?
    requires s.replicas[r].phase.version == s.version
    ensures Inv(DoPatch(true, s, r))
  {
    var p, s' := s.replicas[r].phase, DoPatch(true, s, r);
    assert PhaseOk(s, r, p);
    PatchExtendsGrants(s, r);
    PatchCountsTransitions(s, r);
    WriteKeepsPhases(s, r, s'.lease.value, p.stamp, s.holders + [Some(r)], s.base);
    assert s' == Written(s, r, s'.lease.value, p.stamp, s.holders + [Some(r)], s.base);
  }

  lemma PatchKeepsInv(s: State, r: Id)
    requires Inv(s) && r in s.replicas && s.replicas[r].phase.UpdateReady?
    ensures Inv(DoPatch(true, s, r))
  {
    var me := s.replicas[r];
    if s.lease.None? {
      ReplicaKeepsInv(s, r, Replica(me.duration, Idle, false, me.attempts + 1));
    } else if me.phase.version == s.version {
      WinningPatchKeepsInv(s, r);
    } else {
      PhaseKeepsInv(s, r, Answered(false));
    }
  }

  /** The invariant reads only the phase and the duration of a replica. */
  lemma ReplicaKeepsInv(s: State, r: Id, me: Replica)
    requires Inv(s) && r in s.replicas && PhaseOk(s, r, me.phase) && me.duration == s.replicas[r].duration
    ensures Inv(s.(replicas := s.replicas[r := me]))
  {
    var s' := s.(replicas := s.replicas[r := me]);
    forall q | q in s'.replicas
      ensures PhaseOk(s', q, s'.replicas[q].phase) && ExactDuration(s'.replicas[q].duration)
      ensures OwnGrantsBefore(s', q, s'.clock)
    {
      assert PhaseOk(s, q, s'.replicas[q].phase) && OwnGrantsBefore(s, q, s.clock);
    }
  }

  lemma PhaseKeepsInv(s: State, r: Id, p: Phase)
    requires Inv(s) && r in s.replicas && PhaseOk(s, r, p)
    ensures Inv(SetPhase(s, r, p))
  {
    ReplicaKeepsInv(s, r, s.replicas[r].(phase := p));
  }

  lemma AdvanceKeepsInv(s: State, d: nat)
    requires Inv(s)
    ensures Inv(s.(clock := s.clock + d))
  {
    var s' := s.(clock := s.clock + d);
    forall q | q in s'.replicas ensures PhaseOk(s', q, s'.replicas[q].phase) && OwnGrantsBefore(s', q, s'.clock) {
      assert PhaseOk(s, q, s.replicas[q].phase) && OwnGrantsBefore(s, q, s.clock);
    }
    forall q | q in s'.replicas && s.lease.None? ensures ClearFor(s'.grants, q, s'.clock) {
      assert ClearFor(s.grants, q, s.clock);
    }
  }

  lemma DeleteKeepsInv(s: State)
    requires Inv(s) && MayCreate(s)
    ensures Inv(Step(true, s, Delete))
  {
    var s' := Step(true, s, Delete);
    forall q | q in s'.replicas ensures PhaseOk(s', q, s'.replicas[q].phase) && OwnGrantsBefore(s', q, s'.clock) {
      assert PhaseOk(s, q, s.replicas[q].phase) && OwnGrantsBefore(s, q, s.clock);
    }
  }

  /** What a step of `r` other than a write leaves it remembering is true. */
  lemma QuietStepPhase(s: State, a: Action)
    requires Inv(s) && !a.Advance? && !a.Delete? && a.r in s.replicas
    requires !(a.Write? && (s.replicas[a.r].phase.CreateReady? || s.replicas[a.r].phase.UpdateReady?))
    ensures var s' := Step(true, s, a);
            && a.r in s'.replicas && PhaseOk(s, a.r, s'.replicas[a.r].phase)
            && s'.replicas[a.r].duration == s.replicas[a.r].duration
            && s' == s.(replicas := s.replicas[a.r := s'.replicas[a.r]])
  {
    assert PhaseOk(s, a.r, s.replicas[a.r].phase) && OwnGrantsBefore(s, a.r, s.clock);
    assert s.replicas == s.replicas[a.r := s.replicas[a.r]];
  }

  lemma StepKeepsInv(s: State, a: Action)
    requires Inv(s) && (a.Delete? ==> MayCreate(s))
    ensures Inv(Step(true, s, a))
  {
    if a.Advance? {
      AdvanceKeepsInv(s, a.d);
    } else if a.Delete? {
      DeleteKeepsInv(s);
    } else if a.r in s.replicas {
      if a.Write? && s.replicas[a.r].phase.CreateReady? {
        CreateKeepsInv(s, a.r);
      } else if a.Write? && s.replicas[a.r].phase.UpdateReady? {
        PatchKeepsInv(s, a.r);
      } else {
        QuietStepPhase(s, a);
        ReplicaKeepsInv(s, a.r, Step(true, s, a).replicas[a.r]);
      }
    }
  }

  lemma {:induction false} RunKeepsInv(s: State, actions: seq<Action>)
    requires Inv(s) && SafeDeletes(true, s, actions)
    ensures Inv(Run(true, s, actions))
    decreases |actions|
  {
    if actions != [] {
      StepKeepsInv(s, actions[0]);
      RunKeepsInv(Step(true, s, actions[0]), actions[1..]);
    }
  }

  /** In every run, if a write conflicts when the object changed since it was read, every replica's
      duration is stored exactly and the Lease is deleted only when a creation cannot overlap: the windows
      of different holders never overlap, across all Lease objects of the run, and leaseTransitions counts
      the holder changes of the current one. */
  lemma WindowsNeverOverlap(s: State, actions: seq<Action>)
    requires Init(s) && ExactDurations(s) && SafeDeletes(true, s, actions)
    ensures DisjointWindows(Run(true, s, actions).grants)
    ensures CountsTransitions(Run(true, s, actions))
  {
    RunKeepsInv(s, actions);
  }

  // ---------- What decides it ----------

  function Attempt(r: Id): seq<Action> { [Begin(r), Get(r), Stamp(r), Write(r)] }

  lemma RunFour(cas: bool, s: State, a: Action, b: Action, c: Action, d: Action)
    ensures Run(cas, s, [a, b, c, d]) == Step(cas, Step(cas, Step(cas, Step(cas, s, a), b), c), d)
  {
    var s1, s2, s3 := Step(cas, s, a), Step(cas, Step(cas, s, a), b), Step(cas, Step(cas, Step(cas, s, a), b), c);
    assert [a, b, c, d][1..] == [b, c, d] && [b, c, d][1..] == [c, d] && [c, d][1..] == [d] && [d][1..] == [];
    calc {
      Run(cas, s, [a, b, c, d]);
      Run(cas, s1, [b, c, d]);
      Run(cas, s2, [c, d]);
      Run(cas, s3, [d]);
      Step(cas, s3, d);
    }
  }

  lemma {:induction false} RunConcat(cas: bool, s: State, x: seq<Action>, y: seq<Action>)
    ensures Run(cas, s, x + y) == Run(cas, Run(cas, s, x), y)
    decreases |x|
  {
    if x == [] {
      assert x + y == y;
    } else {
      assert (x + y)[1..] == x[1..] + y;
      RunConcat(cas, Step(cas, s, x[0]), x[1..], y);
    }
  }

  /** An attempt by anybody would be granted. */
  predicate Free(s: State) { s.lease.None? || Expired(s.lease.value, s.clock) }

  /** How long to wait for that. */
  ghost function Wait(s: State): (d: nat)
    ensures Free(s.(clock := s.clock + d))
  {
    if Free(s) then 0 else Expiry(s.lease.value).value - s.clock + 1
  }

  /** An attempt on a free Lease, with nobody interfering, wins it. */
  lemma AttemptWins(cas: bool, s: State, r: Id)
    requires r in s.replicas && s.replicas[r].phase.Idle? && Free(s)
    ensures var e, me := Run(cas, s, Attempt(r)), s.replicas[r];
            && e.clock == s.clock && e.grants == s.grants + [Grant(r, s.clock, s.clock + me.duration)]
            && e.lease.Some? && Expiry(e.lease.value) == Some(s.clock + StoredSeconds(me.duration) * SECOND)
            && e.replicas == s.replicas[r := me.(phase := Answered(true))]
  {
    RunFour(cas, s, Begin(r), Get(r), Stamp(r), Write(r));
  }

  lemma RunOne(cas: bool, s: State, a: Action, rest: seq<Action>)
    ensures Run(cas, s, [a] + rest) == Run(cas, Step(cas, s, a), rest)
  {
    assert ([a] + rest)[1..] == rest;
  }

  lemma EarlyGrantOverlaps(grants: seq<Grant>, i: nat, g: Grant)
    requires i < |grants| && grants[i].holder != g.holder && grants[i].expires >= g.renew
    ensures !DisjointWindows(grants + [g])
  {
    var all := grants + [g];
    assert all[i] == grants[i] && all[|grants|] == g;
  }

  predicate NoDelete(actions: seq<Action>) { forall i :: 0 <= i < |actions| ==> !actions[i].Delete? }

  lemma {:induction false} NoDeleteIsSafe(cas: bool, s: State, actions: seq<Action>)
    requires NoDelete(actions)
    ensures SafeDeletes(cas, s, actions)
    decreases |actions|
  {
    if actions != [] { NoDeleteIsSafe(cas, Step(cas, s, actions[0]), actions[1..]); }
  }

  lemma TwoOf(replicas: map<Id, Replica>, a: Id) returns (b: Id)
    requires |replicas| > 1
    ensures b in replicas && b != a
  {
    if forall r :: r in replicas ==> r == a {
      assert replicas.Keys <= {a};
      OneKey(replicas, a);
    }
    b :| b in replicas && b != a;
  }

  lemma OneKey(replicas: map<Id, Replica>, a: Id)
    requires replicas.Keys <= {a}
    ensures |replicas| <= 1
  {
    assert |replicas| == |replicas.Keys|;
    assert replicas.Keys == {} || replicas.Keys == {a};
  }

  /** Wait until the Lease is free, let `a` win it, wait again, let `b` win it. */
  function TakeOver(first: nat, a: Id, second: nat, b: Id): seq<Action> {
    [Advance(first)] + (Attempt(a) + ([Advance(second)] + Attempt(b)))
  }

  /** The second replica takes over once the stored duration has passed. */
  lemma TakeOverGrants(cas: bool, s: State, a: Id, second: nat, b: Id)
    requires a != b && a in s.replicas && b in s.replicas && s.replicas[a].phase.Idle? && s.replicas[b].phase.Idle?
    requires second > StoredSeconds(s.replicas[a].duration) * SECOND
    ensures var t := s.clock + Wait(s);
            Run(cas, s, TakeOver(Wait(s), a, second, b)).grants
            == s.grants + [Grant(a, t, t + s.replicas[a].duration)]
               + [Grant(b, t + second, t + second + s.replicas[b].duration)]
  {
    var s1 := Step(cas, s, Advance(Wait(s)));
    var s2 := Run(cas, s1, Attempt(a));
    RunOne(cas, s, Advance(Wait(s)), Attempt(a) + ([Advance(second)] + Attempt(b)));
    RunConcat(cas, s1, Attempt(a), [Advance(second)] + Attempt(b));
    RunOne(cas, s2, Advance(second), Attempt(b));
    AttemptWins(cas, s1, a);
    AttemptWins(cas, Step(cas, s2, Advance(second)), b);
  }

  /** The exact condition on the configuration, for any two or more replicas and any initial Lease: no run
      overlaps two holders' windows precisely when every duration is stored exactly, which by
      `ExactDurationIsWholeSeconds` means whole seconds that fit an i32. */
  lemma SafeIffExactDurations(s: State)
    requires Init(s) && |s.replicas| > 1
    ensures (forall actions :: SafeDeletes(true, s, actions) ==> DisjointWindows(Run(true, s, actions).grants))
       <==> ExactDurations(s)
  {
    if ExactDurations(s) {
      forall actions | SafeDeletes(true, s, actions) ensures DisjointWindows(Run(true, s, actions).grants) {
        WindowsNeverOverlap(s, actions);
      }
    } else {
      var a :| a in s.replicas && !ExactDuration(s.replicas[a].duration);
      var b := TwoOf(s.replicas, a);
      InexactTakeOver(s, a, b);
    }
  }

  lemma InexactTakeOver(s: State, a: Id, b: Id)
    requires a != b && a in s.replicas && b in s.replicas && s.replicas[a].phase.Idle? && s.replicas[b].phase.Idle?
    requires !ExactDuration(s.replicas[a].duration)
    ensures exists actions :: SafeDeletes(true, s, actions) && !DisjointWindows(Run(true, s, actions).grants)
  {
    var duration := s.replicas[a].duration;
    var stored := StoredSeconds(duration) * SECOND;
    assert stored < duration;
    var second := if stored < 0 then 0 else stored + 1;
    var actions := TakeOver(Wait(s), a, second, b);
    NoDeleteIsSafe(true, s, actions);
    TakeOverGrants(true, s, a, second, b);
    var t := s.clock + Wait(s);
    var mine := s.grants + [Grant(a, t, t + duration)];
    EarlyGrantOverlaps(mine, |s.grants|, Grant(b, t + second, t + second + s.replicas[b].duration));
  }

  // ---------- Deletion ----------

  /** The exact condition on deleting the Lease: all continuations keep the windows apart precisely when
      every other holder's window has ended, by the clock and by the stamp of any creation already under
      way. */
  lemma DeleteIsSafeIff(s: State)
    requires Inv(s)
    ensures var s' := Step(true, s, Delete);
            (forall actions :: SafeDeletes(true, s', actions) ==> DisjointWindows(Run(true, s', actions).grants))
            <==> MayCreate(s)
  {
    var s' := Step(true, s, Delete);
    if MayCreate(s) {
      DeleteKeepsInv(s);
      forall actions | SafeDeletes(true, s', actions) ensures DisjointWindows(Run(true, s', actions).grants) {
        RunKeepsInv(s', actions);
      }
    } else {
      var r :| r in s.replicas && !(ClearFor(s.grants, r, s.clock)
        && (s.replicas[r].phase.CreateReady? ==> ClearFor(s.grants, r, s.replicas[r].phase.stamp)));
      if s.replicas[r].phase.CreateReady? && !ClearFor(s.grants, r, s.replicas[r].phase.stamp) {
        StaleCreateOverlaps(s', r);
      } else {
        EarlyCreateOverlaps(true, s', r);
      }
    }
  }

  /** A creation under way since before another holder's window ended lands on the deleted Lease. */
  lemma StaleCreateOverlaps(s: State, r: Id)
    requires s.lease.None? && r in s.replicas && s.replicas[r].phase.CreateReady?
    requires !ClearFor(s.grants, r, s.replicas[r].phase.stamp)
    ensures exists actions :: SafeDeletes(true, s, actions) && !DisjointWindows(Run(true, s, actions).grants)
  {
    var stamp := s.replicas[r].phase.stamp;
    var i :| 0 <= i < |s.grants| && s.grants[i].holder != r && s.grants[i].expires >= stamp;
    EarlyGrantOverlaps(s.grants, i, Grant(r, stamp, stamp + s.replicas[r].duration));
    assert [Write(r)][1..] == [];
    assert Run(true, s, [Write(r)]) == Step(true, s, Write(r));
    NoDeleteIsSafe(true, s, [Write(r)]);
  }

  /** With the Lease gone, a new attempt does not wait for the window of the holder it never sees. */
  lemma EarlyCreateOverlaps(cas: bool, s: State, r: Id)
    requires s.lease.None? && r in s.replicas && !ClearFor(s.grants, r, s.clock)
    ensures exists actions :: SafeDeletes(cas, s, actions) && !DisjointWindows(Run(cas, s, actions).grants)
  {
    var i :| 0 <= i < |s.grants| && s.grants[i].holder != r && s.grants[i].expires >= s.clock;
    EarlyGrantOverlaps(s.grants, i, Grant(r, s.clock, s.clock + s.replicas[r].duration));
    var s1 := Step(cas, s, Fail(r));
    AttemptWins(cas, s1, r);
    RunOne(cas, s, Fail(r), Attempt(r));
    NoDeleteIsSafe(cas, s, [Fail(r)] + Attempt(r));
  }

  function DeleteBetween(a: Id, b: Id): seq<Action> { [Delete] + (Attempt(a) + ([Delete] + Attempt(b))) }

  /** With deletions at any time exclusion fails for any two replicas, conflicting writes or not. */
  lemma DeletionOverlaps(cas: bool, s: State, a: Id, b: Id)
    requires a != b && a in s.replicas && b in s.replicas && s.replicas[a].phase.Idle? && s.replicas[b].phase.Idle?
    ensures !DisjointWindows(Run(cas, s, DeleteBetween(a, b)).grants)
  {
    var s1 := Step(cas, s, Delete);
    var s2 := Run(cas, s1, Attempt(a));
    var s3 := Step(cas, s2, Delete);
    RunOne(cas, s, Delete, Attempt(a) + ([Delete] + Attempt(b)));
    RunConcat(cas, s1, Attempt(a), [Delete] + Attempt(b));
    RunOne(cas, s2, Delete, Attempt(b));
    AttemptWins(cas, s1, a);
    AttemptWins(cas, s3, b);
    EarlyGrantOverlaps(s2.grants, |s.grants|, Grant(b, s.clock, s.clock + s.replicas[b].duration));
  }

  /** A step grants a window to a known replica or to nobody. */
  lemma StepGrants(cas: bool, s: State, a: Action)
    ensures var s' := Step(cas, s, a);
            && s'.replicas.Keys == s.replicas.Keys && |s'.grants| >= |s.grants|
            && forall i :: 0 <= i < |s'.grants| ==>
                 if i < |s.grants| then s'.grants[i] == s.grants[i] else s'.grants[i].holder in s.replicas
  {
  }

  predicate AllBy(grants: seq<Grant>, a: Id) { forall i :: 0 <= i < |grants| ==> grants[i].holder == a }

  /** All grants of a lone replica are its own. */
  lemma {:induction false} LoneReplica(cas: bool, s: State, actions: seq<Action>, a: Id)
    requires s.replicas.Keys <= {a} && AllBy(s.grants, a)
    ensures AllBy(Run(cas, s, actions).grants, a)
    decreases |actions|
  {
    if actions != [] {
      StepGrants(cas, s, actions[0]);
      LoneReplica(cas, Step(cas, s, actions[0]), actions[1..], a);
      assert Run(cas, s, actions) == Run(cas, Step(cas, s, actions[0]), actions[1..]);
    }
  }

  /** A lone replica never overlaps anybody, whatever is deleted and whenever. */
  lemma LoneReplicaIsSafe(cas: bool, s: State, actions: seq<Action>)
    requires s.grants == [] && |s.replicas| <= 1
    ensures DisjointWindows(Run(cas, s, actions).grants)
  {
    var a := if a :| a in s.replicas then a else "";
    if b :| b in s.replicas && b != a { TwoKeys(s.replicas, a, b); }
    LoneReplica(cas, s, actions, a);
  }

  lemma TwoKeys(replicas: map<Id, Replica>, a: Id, b: Id)
    requires a != b && a in replicas && b in replicas
    ensures |replicas| > 1
  {
    assert {a, b} <= replicas.Keys && |{a, b}| == 2;
    SubsetSize({a, b}, replicas.Keys);
  }

  lemma SubsetSize(x: set<Id>, y: set<Id>)
    requires x <= y
    ensures |x| <= |y|
  {
    assert y == x + (y - x);
  }

  /** With deletions at any time, exclusion holds in every run if and only if there is at most one
      replica. */
  lemma AnyDeletionIffOneReplica(cas: bool, s: State)
    requires Init(s)
    ensures (forall actions :: DisjointWindows(Run(cas, s, actions).grants)) <==> |s.replicas| <= 1
  {
    if |s.replicas| <= 1 {
      forall actions ensures DisjointWindows(Run(cas, s, actions).grants) { LoneReplicaIsSafe(cas, s, actions); }
    } else {
      var a := TwoOf(s.replicas, "");
      var b := TwoOf(s.replicas, a);
      DeletionOverlaps(cas, s, a, b);
    }
  }

  // ---------- Without conflicting writes ----------

  /** The write lands on the version that was read. */
  predicate Unraced(s: State, a: Action) {
    a.Write? && a.r in s.replicas && s.replicas[a.r].phase.UpdateReady? ==> s.replicas[a.r].phase.version == s.version
  }

  ghost predicate UnracedRun(s: State, actions: seq<Action>)
    decreases |actions|
  {
    actions == [] || (Unraced(s, actions[0]) && UnracedRun(Step(false, s, actions[0]), actions[1..]))
  }

  lemma {:induction false} UnracedRunsCoincide(s: State, actions: seq<Action>)
    requires UnracedRun(s, actions)
    ensures Run(false, s, actions) == Run(true, s, actions)
    ensures SafeDeletes(false, s, actions) <==> SafeDeletes(true, s, actions)
    decreases |actions|
  {
    if actions != [] {
      assert Step(false, s, actions[0]) == Step(true, s, actions[0]);
      UnracedRunsCoincide(Step(false, s, actions[0]), actions[1..]);
    }
  }

  /** The patch as the code sends it is safe in every run whose patches each land on the version
      they were computed from. */
  lemma UnracedPatchIsSafe(s: State, actions: seq<Action>)
    requires Init(s) && ExactDurations(s) && UnracedRun(s, actions) && SafeDeletes(false, s, actions)
    ensures DisjointWindows(Run(false, s, actions).grants)
    ensures CountsTransitions(Run(false, s, actions))
  {
    UnracedRunsCoincide(s, actions);
    WindowsNeverOverlap(s, actions);
  }

  /** Whatever the API server does with races, a holder that keeps its Lease unexpired keeps it. */
  ghost predicate Unexpired(s: State) {
    s.lease.Some? && Expiry(s.lease.value).Some? && s.clock <= Expiry(s.lease.value).value
  }

  /** The Lease is unexpired in every state of the run and is never deleted. */
  ghost predicate RenewedInTime(cas: bool, s: State, actions: seq<Action>)
    decreases |actions|
  {
    && Unexpired(s)
    && (actions != [] ==> actions[0] != Delete && RenewedInTime(cas, Step(cas, s, actions[0]), actions[1..]))
  }

  /** Not between the read of an attempt and its answer, and not about to report success. */
  predicate Waiting(p: Phase, clock: int) {
    match p
    case Idle => true
    case Started(now) => now <= clock
    case Answered(won) => !won
    case _ => false
  }

  /** `h` holds the Lease and nobody else is between its read and the end of its attempt. */
  ghost predicate HeldBy(s: State, h: Id) {
    && s.lease.Some? && s.lease.value.holder == Some(h)
    && forall r :: r in s.replicas && r != h ==> Waiting(s.replicas[r].phase, s.clock)
  }

  /** Since `s`, no replica other than `h` has raised its flag, and any that finished an attempt has
      lowered it. */
  ghost predicate OthersStandDown(s: State, e: State, h: Id) {
    && e.replicas.Keys == s.replicas.Keys
    && forall r :: r in s.replicas && r != h ==>
         && s.replicas[r].attempts <= e.replicas[r].attempts
         && (e.replicas[r].leader ==> s.replicas[r].leader && e.replicas[r].attempts == s.replicas[r].attempts)
  }

  /** A step of the holder changes no other replica, and whatever it writes names itself. */
  lemma HolderOwnStep(cas: bool, s: State, a: Action, h: Id)
    requires HeldBy(s, h) && !a.Advance? && !a.Delete? && a.r == h
    ensures var s' := Step(cas, s, a);
            && s'.clock == s.clock && s'.replicas.Keys == s.replicas.Keys
            && s'.lease.Some? && s'.lease.value.holder == Some(h)
            && forall r :: r in s.replicas && r != h ==> s'.replicas[r] == s.replicas[r]
  {
  }

  /** A step of another replica leaves the Lease alone and that replica waiting. */
  lemma OtherStep(cas: bool, s: State, a: Action, h: Id)
    requires HeldBy(s, h) && Unexpired(s) && !a.Advance? && !a.Delete? && a.r != h && a.r in s.replicas
    ensures var s' := Step(cas, s, a);
            && s'.clock == s.clock && s'.replicas.Keys == s.replicas.Keys && s'.lease == s.lease
            && (forall r :: r in s.replicas && r != a.r ==> s'.replicas[r] == s.replicas[r])
            && Waiting(s'.replicas[a.r].phase, s.clock)
            && s.replicas[a.r].attempts <= s'.replicas[a.r].attempts
            && (s'.replicas[a.r].leader ==>
               s.replicas[a.r].leader && s'.replicas[a.r].attempts == s.replicas[a.r].attempts)
  {
    assert Waiting(s.replicas[a.r].phase, s.clock);
  }

  lemma HolderStep(cas: bool, s: State, a: Action, h: Id)
    requires HeldBy(s, h) && Unexpired(s) && a != Delete
    ensures HeldBy(Step(cas, s, a), h)
    ensures OthersStandDown(s, Step(cas, s, a), h)
  {
    if !a.Advance? && a.r == h {
      HolderOwnStep(cas, s, a, h);
    } else if !a.Advance? && a.r in s.replicas {
      OtherStep(cas, s, a, h);
    }
  }

  /** In every run, with or without conflicting writes, in which the Lease stays unexpired and is not
      deleted: the holder never changes, and every other replica's flag is false from its next
      completed attempt on. */
  lemma {:induction false} HolderKeepsLease(cas: bool, s: State, actions: seq<Action>, h: Id)
    requires HeldBy(s, h) && RenewedInTime(cas, s, actions)
    ensures HeldBy(Run(cas, s, actions), h)
    ensures OthersStandDown(s, Run(cas, s, actions), h)
    decreases |actions|
  {
    if actions != [] {
      HolderStep(cas, s, actions[0], h);
      HolderKeepsLease(cas, Step(cas, s, actions[0]), actions[1..], h);
    }
  }

  /** Two attempts racing on one expired Lease, both reads before both patches. */
  function Race(a: Id, b: Id): seq<Action> {
    [Begin(a), Begin(b), Get(a), Get(b)] + ([Stamp(a), Stamp(b), Write(a), Write(b)] + [Finish(a), Finish(b)])
  }

  lemma BothRead(s: State, a: Id, b: Id)
    requires a != b && a in s.replicas && b in s.replicas
    requires s.replicas[a].phase.Idle? && s.replicas[b].phase.Idle?
    requires s.lease.Some? && Expired(s.lease.value, s.clock)
    ensures var e, up := Run(false, s, [Begin(a), Begin(b), Get(a), Get(b)]),
            Updating(s.lease.value, s.version, s.clock);
            e == s.(replicas := s.replicas[a := s.replicas[a].(phase := up)][b := s.replicas[b].(phase := up)])
  {
    RunFour(false, s, Begin(a), Begin(b), Get(a), Get(b));
  }

  function Stamped(s: State, a: Id, b: Id): State
    requires a in s.replicas && b in s.replicas && s.replicas[a].phase.Updating? && s.replicas[b].phase.Updating?
  {
    var p, q := s.replicas[a].phase, s.replicas[b].phase;
    s.(replicas := s.replicas[a := s.replicas[a].(phase := UpdateReady(p.snapshot, p.version, p.now, s.clock))]
                             [b := s.replicas[b].(phase := UpdateReady(q.snapshot, q.version, q.now, s.clock))])
  }

  lemma BothStamp(s: State, a: Id, b: Id)
    requires a != b && a in s.replicas && b in s.replicas
    requires s.replicas[a].phase.Updating? && s.replicas[b].phase.Updating?
    ensures Step(false, Step(false, s, Stamp(a)), Stamp(b)) == Stamped(s, a, b)
  {
  }

  lemma BothPatch(s: State, a: Id, b: Id)
    requires a != b && a in s.replicas && b in s.replicas && s.lease.Some?
    requires s.replicas[a].phase.UpdateReady? && s.replicas[b].phase.UpdateReady?
    ensures var e := Step(false, Step(false, s, Write(a)), Write(b));
            && e.replicas
               == s.replicas[a := s.replicas[a].(phase := Answered(true))][b := s.replicas[b].(phase := Answered(true))]
            && e.grants == s.grants
               + [Grant(a, s.replicas[a].phase.stamp, s.replicas[a].phase.stamp + s.replicas[a].duration)]
               + [Grant(b, s.replicas[b].phase.stamp, s.replicas[b].phase.stamp + s.replicas[b].duration)]
  {
  }

  lemma TwiceSet(m: map<Id, Replica>, a: Id, b: Id, x: Replica, y: Replica, x': Replica, y': Replica)
    requires a != b
    ensures m[a := x][b := y][a := x'][b := y'] == m[a := x'][b := y']
  {
  }

  lemma BothWrite(s: State, a: Id, b: Id)
    requires a != b && a in s.replicas && b in s.replicas && s.lease.Some?
    requires s.replicas[a].phase.Updating? && s.replicas[b].phase.Updating?
    ensures var e := Run(false, s, [Stamp(a), Stamp(b), Write(a), Write(b)]);
            && e.replicas
               == s.replicas[a := s.replicas[a].(phase := Answered(true))][b := s.replicas[b].(phase := Answered(true))]
            && e.grants
               == s.grants + [Grant(a, s.clock, s.clock + s.replicas[a].duration)]
                 + [Grant(b, s.clock, s.clock + s.replicas[b].duration)]
  {
    RunFour(false, s, Stamp(a), Stamp(b), Write(a), Write(b));
    BothStamp(s, a, b);
    var m := Stamped(s, a, b);
    BothPatch(m, a, b);
    TwiceSet(s.replicas, a, b, m.replicas[a], m.replicas[b],
             s.replicas[a].(phase := Answered(true)), s.replicas[b].(phase := Answered(true)));
  }

  lemma BothReport(s: State, a: Id, b: Id)
    requires a != b && a in s.replicas && b in s.replicas
    requires s.replicas[a].phase == Answered(true) && s.replicas[b].phase == Answered(true)
    ensures var e := Run(false, s, [Finish(a), Finish(b)]);
            a in e.replicas && b in e.replicas && e.replicas[a].leader && e.replicas[b].leader && e.grants == s.grants
  {
    var report := [Finish(a), Finish(b)];
    assert report[1..] == [Finish(b)] && report[1..][1..] == [];
    assert Run(false, Step(false, s, Finish(a)), report[1..]) == Step(false, Step(false, s, Finish(a)), Finish(b));
  }

  /** The merge patch without a version check does not give exclusion: when two replicas read the same
      expired Lease before either patches, both are told they lead, with overlapping windows. */
  lemma RacingPatchesBothWin(s: State, a: Id, b: Id)
    requires a != b && a in s.replicas && b in s.replicas
    requires s.replicas[a].phase.Idle? && s.replicas[b].phase.Idle?
    requires s.lease.Some? && Expired(s.lease.value, s.clock)
    ensures var e := Run(false, s, Race(a, b));
            && a in e.replicas && b in e.replicas && e.replicas[a].leader && e.replicas[b].leader
            && !DisjointWindows(e.grants)
  {
    var read, write := [Begin(a), Begin(b), Get(a), Get(b)], [Stamp(a), Stamp(b), Write(a), Write(b)];
    var report := [Finish(a), Finish(b)];
    RunConcat(false, s, read, write + report);
    var s1 := Run(false, s, read);
    BothRead(s, a, b);
    RunConcat(false, s1, write, report);
    var s2 := Run(false, s1, write);
    BothWrite(s1, a, b);
    BothReport(s2, a, b);
    var n := |s.grants|;
    assert s2.grants[n] == Grant(a, s.clock, s.clock + s.replicas[a].duration);
    assert s2.grants[n + 1] == Grant(b, s.clock, s.clock + s.replicas[b].duration);
  }

  /** Some run, without any deletion, frees the Lease with both replicas at rest. */
  lemma FreeLease(s: State, a: Id, b: Id) returns (pre: seq<Action>)
    requires a != b && a in s.replicas && b in s.replicas && s.replicas[a].phase.Idle? && s.replicas[b].phase.Idle?
    ensures var e := Run(false, s, pre);
            && NoDelete(pre) && a in e.replicas && b in e.replicas
            && e.replicas[a].phase.Idle? && e.replicas[b].phase.Idle?
            && e.lease.Some? && Expired(e.lease.value, e.clock)
  {
    var s1 := Step(false, s, Advance(Wait(s)));
    AttemptWins(false, s1, a);
    var s2 := Run(false, s1, Attempt(a));
    var s3 := Step(false, s2, Finish(a));
    var s4 := Step(false, s3, Advance(Wait(s3)));
    pre := [Advance(Wait(s))] + (Attempt(a) + ([Finish(a)] + ([Advance(Wait(s3))] + [])));
    RunOne(false, s, Advance(Wait(s)), Attempt(a) + ([Finish(a)] + ([Advance(Wait(s3))] + [])));
    RunConcat(false, s1, Attempt(a), [Finish(a)] + ([Advance(Wait(s3))] + []));
    RunOne(false, s2, Finish(a), [Advance(Wait(s3))] + []);
    RunOne(false, s3, Advance(Wait(s3)), []);
    assert Run(false, s, pre) == s4;
  }

  /** Two replicas overlap in some run. */
  lemma TwoReplicasOverlap(s: State) returns (actions: seq<Action>)
    requires Init(s) && |s.replicas| > 1
    ensures NoDelete(actions) && !DisjointWindows(Run(false, s, actions).grants)
  {
    var a := TwoOf(s.replicas, "");
    var b := TwoOf(s.replicas, a);
    var pre := FreeLease(s, a, b);
    RacingPatchesBothWin(Run(false, s, pre), a, b);
    RunConcat(false, s, pre, Race(a, b));
    actions := pre + Race(a, b);
  }

  /** The exact condition for the patch as the code sends it, over every initial Lease and with no deletion
      at all: exclusion holds in every run if and only if there is at most one replica. */
  lemma UnversionedPatchSafeIffOneReplica(s: State)
    requires Init(s)
    ensures (forall actions :: NoDelete(actions) ==> DisjointWindows(Run(false, s, actions).grants))
       <==> |s.replicas| <= 1
  {
    if |s.replicas| <= 1 {
      forall actions ensures DisjointWindows(Run(false, s, actions).grants) { LoneReplicaIsSafe(false, s, actions); }
    } else {
      var actions := TwoReplicasOverlap(s);
    }
  }
}
