/** Health-aware round robin over the backends of one stream upstream. */
module RoundRobin {

  /** The round-robin counter is a 64-bit atomic that wraps. */
  const WRAP := 0x1_0000_0000_0000_0000

  /** The slot tried at offset `i` from counter value `start`. */
  function Slot(start: nat, i: nat, n: nat): nat
    requires n > 0
  {
    (start + i) % WRAP % n
  }

  class Upstream<Server> {
    const servers: seq<Server>
    var counter: nat

    predicate Valid()
      reads this
    {
      servers != [] && counter < 0x1_0000_0000_0000_0000
    }

    constructor (servers: seq<Server>)
      requires servers != []
      ensures Valid() && this.servers == servers && counter == 0
    {
      this.servers, counter := servers, 0;
    }

    /** `eligible[i]` is the verdict of backend i's health check during this call.  The first
        eligible slot from the counter on is taken; with none eligible, the counter's own slot. */
    method NextServer(eligible: seq<bool>) returns (server: Server)
      requires Valid() && |eligible| == |servers|
      modifies this
      ensures Valid() && counter == (old(counter) + 1) % 0x1_0000_0000_0000_0000
      ensures server == servers[Pick(old(counter), eligible)]
    {
      var n := |servers|;
      var start := counter;
      counter := (counter + 1) % WRAP;
      var i := 0;
      while i < n
        invariant 0 <= i <= n
        invariant PickFrom(start, i, eligible) == Pick(start, eligible)
      {
        var idx := Slot(start, i, n);
        if eligible[idx] {
          return servers[idx];
        }
        i := i + 1;
      }
      return servers[start % n];
    }
  }

  function PickFrom(start: nat, i: nat, eligible: seq<bool>): (slot: nat)
    requires eligible != [] && i <= |eligible|
    ensures slot < |eligible|
    decreases |eligible| - i
  {
    if i == |eligible| then start % |eligible|
    else if eligible[Slot(start, i, |eligible|)] then Slot(start, i, |eligible|)
    else PickFrom(start, i + 1, eligible)
  }

  function Pick(start: nat, eligible: seq<bool>): (slot: nat)
    requires eligible != []
    ensures slot < |eligible|
  {
    PickFrom(start, 0, eligible)
  }

  /** How many of `calls` consecutive picks from counter value `from` choose backend `j`. */
  function Count(from: nat, calls: nat, j: nat, eligible: seq<bool>): nat
    requires eligible != []
  {
    if calls == 0 then 0
    else Count(from, calls - 1, j, eligible) + if Pick(from + calls - 1, eligible) == j then 1 else 0
  }

  // ---------- The share of each backend ----------

  /** Cyclic distance from backend `j` back to the previous eligible one (all the way round when it
      is the only one), searching from distance `d`. */
  function GapFrom(j: nat, d: nat, eligible: seq<bool>): (g: nat)
    requires j < |eligible| && 1 <= d <= |eligible|
    ensures d <= g <= |eligible|
    ensures forall k :: d <= k < g ==> !eligible[Back(j, k, |eligible|)]
    ensures g < |eligible| ==> eligible[Back(j, g, |eligible|)]
    decreases |eligible| - d
  {
    if d == |eligible| || eligible[Back(j, d, |eligible|)] then d else GapFrom(j, d + 1, eligible)
  }

  /** The backend `k` places before `j`. */
  function Back(j: nat, k: nat, n: nat): (b: nat)
    requires j < n && k <= n
    ensures b < n
  {
    if k <= j then j - k else j + n - k
  }

  predicate NoneEligible(eligible: seq<bool>) { true !in eligible }

  function Share(j: nat, eligible: seq<bool>): (s: nat)
    requires j < |eligible|
    ensures s <= |eligible|
  {
    if NoneEligible(eligible) then 1
    else if eligible[j] then GapFrom(j, 1, eligible)
    else 0
  }

  // ---------- Where a pick lands ----------

  lemma DivUnique(x: nat, n: nat, q: nat, r: nat)
    requires n > 0 && x == q * n + r && r < n
    ensures x / n == q && x % n == r
  {
    var q', r' := x / n, x % n;
    assert q' * n + r' == q * n + r;
    if q' > q {
      MulAtLeast(q' - q, n);
    } else if q > q' {
      MulAtLeast(q - q', n);
    }
  }

  lemma MulAtLeast(k: nat, n: nat)
    requires k >= 1
    ensures k * n >= n
    ensures forall a: nat, b: nat :: a == b + k ==> a * n == b * n + k * n
  {
    assert k * n == n + (k - 1) * n;
  }

  lemma Divides(x: nat, n: nat) returns (q: nat, r: nat)
    requires n > 0
    ensures x == q * n + r && r < n && r == x % n
  {
    q, r := x / n, x % n;
  }

  lemma SmallMod(x: nat, n: nat)
    requires x < n
    ensures x % n == x
  {
  }

  /** Counter values below `top` act like an unbounded counter: they do not wrap, or wrapping does not
      shift the slots. */
  predicate Unwrapped(top: nat, n: nat) { top <= WRAP || (0 < n && WRAP % n == 0) }

  /** A multiple of the modulus can be taken off first. */
  lemma ModOfMod(x: nat, n: nat, q: nat, r: nat)
    requires 0 < n && x == q * n + r && r < n && WRAP % n == 0
    ensures x % WRAP % n == r
  {
    var c, z := Divides(WRAP, n);
    var k, y := Divides(x, WRAP);
    Distribute(k, c, q, n);
    assert y == (q - k * c) * n + r;
    if q < k * c { MulAtLeast(k * c - q, n); }
    DivUnique(y, n, q - k * c, r);
  }

  lemma Distribute(k: nat, c: nat, q: nat, n: nat)
    ensures k * (c * n) == (k * c) * n && (q - k * c) * n == q * n - (k * c) * n
  {
  }

  lemma SlotIs(start: nat, i: nat, n: nat, q: nat, r: nat)
    requires 0 < n && Unwrapped(start + i + 1, n) && start + i == q * n + r && r < n
    ensures Slot(start, i, n) == r
  {
    if start + i < WRAP {
      SmallMod(start + i, WRAP);
      DivUnique(start + i, n, q, r);
    } else {
      ModOfMod(start + i, n, q, r);
    }
  }

  lemma NextMultiple(q: nat, n: nat)
    ensures (q + 1) * n == q * n + n && 0 * n == 0 && 1 * n == n
  {
  }

  /** Within two rounds of the origin a slot is plain subtraction. */
  lemma SlotBack(j: nat, d: nat, i: nat, n: nat)
    requires j < n && i <= d < n && Unwrapped(2 * n, n)
    ensures Slot(j + n - d, i, n) == Back(j, d - i, n)
  {
    var x := j + n - d + i;
    NextMultiple(0, n);
    if x < n { SlotIs(j + n - d, i, n, 0, x); } else { SlotIs(j + n - d, i, n, 1, x - n); }
  }

  lemma {:induction false} SkipIneligible(start: nat, i: nat, to: nat, eligible: seq<bool>)
    requires eligible != [] && i <= to <= |eligible|
    requires forall k :: i <= k < to ==> !eligible[Slot(start, k, |eligible|)]
    ensures PickFrom(start, i, eligible) == PickFrom(start, to, eligible)
    decreases |eligible| - i
  {
    if i < to { SkipIneligible(start, i + 1, to, eligible); }
  }

  /** With some backend eligible, the pick is eligible. */
  lemma {:induction false} PickIsEligible(start: nat, i: nat, eligible: seq<bool>, w: nat)
    requires eligible != [] && i <= w < |eligible| && eligible[Slot(start, w, |eligible|)]
    ensures eligible[PickFrom(start, i, eligible)]
    decreases |eligible| - i
  {
    if !eligible[Slot(start, i, |eligible|)] { PickIsEligible(start, i + 1, eligible, w); }
  }

  lemma PickBeforeNone(j: nat, d: nat, eligible: seq<bool>)
    requires j < |eligible| && d < |eligible| && Unwrapped(2 * |eligible|, |eligible|) && NoneEligible(eligible)
    ensures Pick(j + |eligible| - d, eligible) == Back(j, d, |eligible|)
  {
    var n := |eligible|;
    SkipIneligible(j + n - d, 0, n, eligible);
    OwnSlot(j + n - d, n);
    SlotBack(j, d, 0, n);
  }

  lemma OwnSlot(start: nat, n: nat)
    requires 0 < n && Unwrapped(start + 1, n)
    ensures Slot(start, 0, n) == start % n
  {
    var q, r := Divides(start, n);
    SlotIs(start, 0, n, q, r);
  }

  /** The scan stops at the first eligible slot. */
  lemma PickStops(start: nat, d: nat, eligible: seq<bool>)
    requires d < |eligible| && eligible[Slot(start, d, |eligible|)]
    requires forall k :: 0 <= k < d ==> !eligible[Slot(start, k, |eligible|)]
    ensures Pick(start, eligible) == Slot(start, d, |eligible|)
  {
    SkipIneligible(start, 0, d, eligible);
  }

  /** No slot between d places before j and j itself is eligible when d is below j's gap. */
  lemma GapSlots(start: nat, j: nat, d: nat, eligible: seq<bool>, k: nat)
    requires j < |eligible| && d < |eligible| && Unwrapped(2 * |eligible|, |eligible|)
    requires start == j + |eligible| - d && k < d < GapFrom(j, 1, eligible)
    ensures !eligible[Slot(start, k, |eligible|)]
  {
    SlotBack(j, d, k, |eligible|);
    assert 1 <= d - k;
  }

  lemma PickReaches(start: nat, j: nat, d: nat, eligible: seq<bool>)
    requires j < |eligible| && d < |eligible| && Unwrapped(2 * |eligible|, |eligible|)
    requires start == j + |eligible| - d && eligible[j] && d < GapFrom(j, 1, eligible)
    ensures Pick(start, eligible) == j
  {
    forall k | 0 <= k < d ensures !eligible[Slot(start, k, |eligible|)] { GapSlots(start, j, d, eligible, k); }
    SlotBack(j, d, d, |eligible|);
    PickStops(start, d, eligible);
  }

  /** With d at or beyond j's gap, an eligible backend comes first. */
  lemma PickFalls(start: nat, j: nat, d: nat, eligible: seq<bool>)
    requires j < |eligible| && d < |eligible| && Unwrapped(2 * |eligible|, |eligible|)
    requires start == j + |eligible| - d && d >= GapFrom(j, 1, eligible)
    ensures Pick(start, eligible) != j
  {
    var g := GapFrom(j, 1, eligible);
    SlotBack(j, d, d - g, |eligible|);
    PickNotBeyond(start, d - g, eligible, j, d);
  }

  lemma PickBeforeEligible(j: nat, d: nat, eligible: seq<bool>)
    requires j < |eligible| && d < |eligible| && Unwrapped(2 * |eligible|, |eligible|) && eligible[j]
    ensures Pick(j + |eligible| - d, eligible) == j <==> d < GapFrom(j, 1, eligible)
  {
    if d < GapFrom(j, 1, eligible) {
      PickReaches(j + |eligible| - d, j, d, eligible);
    } else {
      PickFalls(j + |eligible| - d, j, d, eligible);
    }
  }

  /** Counting back from backend j: the pick made d slots before j is j exactly when d is below
      j's share. */
  lemma PickBefore(j: nat, d: nat, eligible: seq<bool>)
    requires j < |eligible| && d < |eligible| && Unwrapped(3 * |eligible|, |eligible|)
    ensures Pick(j + |eligible| - d, eligible) == j <==> d < Share(j, eligible)
  {
    if NoneEligible(eligible) {
      PickBeforeNone(j, d, eligible);
    } else if eligible[j] {
      PickBeforeEligible(j, d, eligible);
    } else {
      PickAvoidsIneligible(j + |eligible| - d, eligible);
    }
  }

  /** Never an ineligible backend while some backend is eligible. */
  lemma PickAvoidsIneligible(start: nat, eligible: seq<bool>)
    requires eligible != [] && Unwrapped(start + |eligible|, |eligible|) && !NoneEligible(eligible)
    ensures eligible[Pick(start, eligible)]
  {
    var w :| 0 <= w < |eligible| && eligible[w];
    var off := SlotReaches(start, w, |eligible|);
    PickIsEligible(start, 0, eligible, off);
  }

  /** Every backend is some offset away. */
  lemma SlotReaches(start: nat, w: nat, n: nat) returns (off: nat)
    requires w < n && Unwrapped(start + n, n)
    ensures off < n && Slot(start, off, n) == w
  {
    var q, r := Divides(start, n);
    NextMultiple(q, n);
    if w >= r {
      off := w - r;
      SlotIs(start, off, n, q, w);
    } else {
      off := w + n - r;
      SlotIs(start, off, n, q + 1, w);
    }
  }

  /** An eligible slot at offset e before j's own stops the scan short of j. */
  lemma PickNotBeyond(start: nat, e: nat, eligible: seq<bool>, j: nat, d: nat)
    requires j < |eligible| && e < d < |eligible| && start == j + |eligible| - d
             && Unwrapped(2 * |eligible|, |eligible|)
    requires eligible[Slot(start, e, |eligible|)]
    ensures Pick(start, eligible) != j
  {
    var i := StopsBy(start, 0, e, eligible);
    SlotIsNot(j, d, i, |eligible|);
  }

  lemma SlotIsNot(j: nat, d: nat, i: nat, n: nat)
    requires j < n && i < d < n && Unwrapped(2 * n, n)
    ensures Slot(j + n - d, i, n) != j
  {
    SlotBack(j, d, i, n);
  }

  lemma {:induction false} StopsBy(start: nat, i: nat, e: nat, eligible: seq<bool>) returns (k: nat)
    requires eligible != [] && i <= e < |eligible| && eligible[Slot(start, e, |eligible|)]
    ensures i <= k <= e && PickFrom(start, i, eligible) == Slot(start, k, |eligible|)
    decreases |eligible| - i
  {
    if eligible[Slot(start, i, |eligible|)] { k := i; } else { k := StopsBy(start, i + 1, e, eligible); }
  }

  // ---------- Counting ----------

  /** The window of n calls ending at j's own slot. */
  lemma {:induction false} CountBefore(j: nat, calls: nat, eligible: seq<bool>)
    requires j < |eligible| && calls <= |eligible| && Unwrapped(3 * |eligible|, |eligible|)
    ensures var miss := |eligible| - Share(j, eligible);
            Count(j + 1, calls, j, eligible) == if calls <= miss then 0 else calls - miss
  {
    if calls > 0 {
      CountBefore(j, calls - 1, eligible);
      PickBefore(j, |eligible| - calls, eligible);
    }
  }

  lemma SlotPeriodic(start: nat, i: nat, n: nat)
    requires i < n && Unwrapped(start + 2 * n, n)
    ensures Slot(start + n, i, n) == Slot(start, i, n)
  {
    var q, r := Divides(start + i, n);
    NextMultiple(q, n);
    SlotIs(start, i, n, q, r);
    SlotIs(start + n, i, n, q + 1, r);
  }

  lemma {:induction false} PickPeriodic(start: nat, i: nat, eligible: seq<bool>)
    requires eligible != [] && i <= |eligible| && Unwrapped(start + 2 * |eligible|, |eligible|)
    ensures PickFrom(start + |eligible|, i, eligible) == PickFrom(start, i, eligible)
    decreases |eligible| - i
  {
    if i < |eligible| {
      SlotPeriodic(start, i, |eligible|);
      PickPeriodic(start, i + 1, eligible);
    } else {
      SlotPeriodic(start, 0, |eligible|);
      OwnSlot(start, |eligible|);
      OwnSlot(start + |eligible|, |eligible|);
    }
  }

  lemma {:induction false} CountFront(from: nat, calls: nat, j: nat, eligible: seq<bool>)
    requires eligible != [] && calls > 0
    ensures Count(from, calls, j, eligible) ==
            (if Pick(from, eligible) == j then 1 else 0) + Count(from + 1, calls - 1, j, eligible)
  {
    if calls > 1 {
      CountFront(from, calls - 1, j, eligible);
      assert from + calls - 1 == from + 1 + (calls - 1) - 1;
    }
  }

  /** Moving a window one call on drops its first pick and takes the one after its last. */
  lemma CountMoves(from: nat, n: nat, j: nat, eligible: seq<bool>)
    requires eligible != [] && n > 0 && Pick(from + n, eligible) == Pick(from, eligible)
    ensures Count(from + 1, n, j, eligible) == Count(from, n, j, eligible)
  {
    CountFront(from, n, j, eligible);
    assert from + 1 + n - 1 == from + n;
  }

  /** A window of n calls counts the same wherever it starts. */
  lemma {:induction false} CountSlides(from: nat, j: nat, eligible: seq<bool>)
    requires eligible != [] && Unwrapped(from + 2 * |eligible|, |eligible|)
    ensures Count(from, |eligible|, j, eligible) == Count(0, |eligible|, j, eligible)
  {
    if from > 0 {
      CountSlides(from - 1, j, eligible);
      PickPeriodic(from - 1, 0, eligible);
      CountMoves(from - 1, |eligible|, j, eligible);
    }
  }

  /** Exact shares: with the eligible set fixed, any n consecutive calls over n backends below
      wrap-around pick each backend exactly `Share` times: its distance from the previous eligible one,
      never if ineligible, and once each when none is eligible. */
  lemma ExactShares(from: nat, j: nat, eligible: seq<bool>)
    requires j < |eligible| && Unwrapped(from + 2 * |eligible|, |eligible|) && Unwrapped(3 * |eligible|, |eligible|)
    ensures Count(from, |eligible|, j, eligible) == Share(j, eligible)
  {
    CountSlides(from, j, eligible);
    CountSlides(j + 1, j, eligible);
    CountBefore(j, |eligible|, eligible);
  }

  // ---------- Across wrap-around ----------

  /** The same count when the counter wraps between calls, as the code's does. */
  function WrappedCount(from: nat, calls: nat, j: nat, eligible: seq<bool>): nat
    requires eligible != []
  {
    if calls == 0 then 0
    else WrappedCount(from, calls - 1, j, eligible) + if Pick((from + calls - 1) % WRAP, eligible) == j then 1 else 0
  }

  /** When the number of backends divides 2^64 a wrapped counter picks like an unbounded one. */
  lemma {:induction false} WrappedPick(x: nat, i: nat, eligible: seq<bool>)
    requires eligible != [] && i <= |eligible| && WRAP % |eligible| == 0
    ensures PickFrom(x % WRAP, i, eligible) == PickFrom(x, i, eligible)
    decreases |eligible| - i
  {
    var n := |eligible|;
    var q, r := Divides(x, n);
    ModOfMod(x, n, q, r);
    if i < n {
      WrappedSlot(x, i, n);
      WrappedPick(x, i + 1, eligible);
    }
  }

  lemma WrappedSlot(x: nat, i: nat, n: nat)
    requires 0 < n && WRAP % n == 0
    ensures Slot(x % WRAP, i, n) == Slot(x, i, n)
  {
    var k, y := Divides(x, WRAP);
    var k', y' := Divides(y + i, WRAP);
    assert x + i == (k + k') * WRAP + y';
    DivUnique(x + i, WRAP, k + k', y');
  }

  lemma {:induction false} WrappedCountAgrees(from: nat, calls: nat, j: nat, eligible: seq<bool>)
    requires eligible != [] && WRAP % |eligible| == 0
    ensures WrappedCount(from, calls, j, eligible) == Count(from, calls, j, eligible)
  {
    if calls > 0 {
      WrappedCountAgrees(from, calls - 1, j, eligible);
      WrappedPick(from + calls - 1, 0, eligible);
    }
  }

  lemma RemainderAtMost(y: nat, w: nat)
    requires 0 < w
    ensures y % w <= y && (y + w) % w <= y
  {
    var q, r := Divides(y, w);
    var q', r' := Divides(y + w, w);
    NextMultiple(0, w);
    ProductNonNegative(q, w);
    if q' >= 1 { MulAtLeast(q', w); }
  }

  lemma ProductNonNegative(q: nat, w: nat)
    ensures q * w >= 0
  {
  }

  predicate AllEligible(eligible: seq<bool>) { forall k :: 0 <= k < |eligible| ==> eligible[k] }

  lemma PickOwn(x: nat, eligible: seq<bool>)
    requires eligible != [] && AllEligible(eligible) && x < WRAP
    ensures Pick(x, eligible) == x % |eligible|
  {
    OwnSlot(x, |eligible|);
  }

  /** With every backend eligible, the window that starts at the last counter value picks the last
      backend at most at its first call. */
  lemma {:induction false} LastBackendMissed(calls: nat, eligible: seq<bool>)
    requires 0 < calls <= |eligible| && AllEligible(eligible)
    ensures WrappedCount(WRAP - 1, calls, |eligible| - 1, eligible) == if (WRAP - 1) % |eligible| == |eligible| - 1
            then 1 else 0
  {
    if calls == 1 {
      SmallMod(WRAP - 1, WRAP);
      PickOwn(WRAP - 1, eligible);
      assert WrappedCount(WRAP - 1, 0, |eligible| - 1, eligible) == 0;
    } else {
      LastBackendMissed(calls - 1, eligible);
      LaterPickIsSmall(calls, eligible);
    }
  }

  lemma LaterPickIsSmall(calls: nat, eligible: seq<bool>)
    requires 2 <= calls <= |eligible| && AllEligible(eligible)
    ensures Pick((WRAP - 1 + calls - 1) % WRAP, eligible) <= calls - 2
  {
    var x := (calls - 2 + WRAP) % WRAP;
    RemainderAtMost(calls - 2, WRAP);
    PickOwn(x, eligible);
    RemainderAtMost(x, |eligible|);
  }

  lemma LastSlotIff(n: nat)
    requires 0 < n
    ensures (WRAP - 1) % n == n - 1 <==> WRAP % n == 0
  {
    var q, r := Divides(WRAP - 1, n);
    NextMultiple(q, n);
    if r == n - 1 { DivUnique(WRAP, n, q + 1, 0); } else { DivUnique(WRAP, n, q, r + 1); }
  }

  ghost predicate AlwaysExact(n: nat)
    requires 0 < n
  {
    forall from: nat, j: nat, eligible: seq<bool> ::
      |eligible| == n && j < n ==> WrappedCount(from, n, j, eligible) == Share(j, eligible)
  }

  lemma AllEligibleShare(j: nat, eligible: seq<bool>)
    requires j < |eligible| && AllEligible(eligible)
    ensures Share(j, eligible) == 1
  {
    assert eligible[j] in eligible;
  }

  /** The exact condition: every window of n calls, wherever the 64-bit counter stands and whichever
      backends are eligible, gives the exact shares if and only if n divides 2^64. */
  lemma AlwaysExactIff(n: nat)
    requires 0 < n
    ensures AlwaysExact(n) <==> WRAP % n == 0
  {
    if WRAP % n == 0 {
      forall from: nat, j: nat, eligible: seq<bool> | |eligible| == n && j < n
        ensures WrappedCount(from, n, j, eligible) == Share(j, eligible)
      {
        WrappedCountAgrees(from, n, j, eligible);
        ExactShares(from, j, eligible);
      }
    } else {
      var eligible := seq(n, i => true);
      LastBackendMissed(n, eligible);
      LastSlotIff(n);
      AllEligibleShare(n - 1, eligible);
      assert WrappedCount(WRAP - 1, n, n - 1, eligible) != Share(n - 1, eligible);
    }
  }

  // ---------- Eligible picks across wrap-around ----------

  function OnlyLast(n: nat): (eligible: seq<bool>)
    requires 0 < n
    ensures |eligible| == n && forall i :: 0 <= i < n ==> (eligible[i] <==> i == n - 1)
  {
    seq(n, i => i == n - 1)
  }

  /** From the last counter value on, the scan visits the last backend only at its first slot. */
  lemma LastSlotMissed(i: nat, n: nat)
    requires 0 < n && i < n && WRAP % n != 0
    ensures Slot(WRAP - 1, i, n) != n - 1
  {
    if i == 0 {
      OwnSlot(WRAP - 1, n);
      LastSlotIff(n);
    } else {
      RemainderAtMost(i - 1, WRAP);
      RemainderAtMost((i - 1 + WRAP) % WRAP, n);
    }
  }

  ghost predicate AlwaysEligible(n: nat)
    requires 0 < n
  {
    forall start: nat, eligible: seq<bool> ::
      start < WRAP && |eligible| == n && !NoneEligible(eligible) ==> eligible[Pick(start, eligible)]
  }

  /** The exact condition: at every counter value the pick is eligible whenever some backend is, if and only
      if n divides 2^64.  Otherwise the scan that crosses the wrap skips a backend. */
  lemma AlwaysEligibleIff(n: nat)
    requires 0 < n
    ensures AlwaysEligible(n) <==> WRAP % n == 0
  {
    if WRAP % n == 0 {
      forall start: nat, eligible: seq<bool> | start < WRAP && |eligible| == n && !NoneEligible(eligible)
        ensures eligible[Pick(start, eligible)]
      {
        PickAvoidsIneligible(start, eligible);
      }
    } else {
      var eligible := OnlyLast(n);
      assert eligible[n - 1] in eligible;
      var start := WRAP - 1;
      forall i | 0 <= i < n ensures !eligible[Slot(start, i, n)] { LastSlotMissed(i, n); }
      SkipIneligible(start, 0, n, eligible);
      LastSlotIff(n);
      assert !eligible[Pick(WRAP - 1, eligible)];
    }
  }
}
