/**
  The autoscaler's arithmetic for the idle-session-number policy: how many unoccupied pods an
  application should have, and what repeated syncs do with that number.
 */
module Autoscaler {
  import opened Common

  /** Water marks count idle sessions; `min` and `max` bound the total number of pods. */
  datatype Policy = Policy(low: nat, high: nat, min: nat, max: nat, burst: nat)

  const DEFAULT_BURST: nat := 2

  function Burst(p: Policy): nat {
    if p.burst == 0 then DEFAULT_BURST else p.burst
  }

  /** The wanted number of unoccupied pods, when `idle` exist and `sessions` wait for one. */
  function DesiredIdlePods(p: Policy, occupied: nat, idle: nat, sessions: nat): int {
    var spare := idle - sessions;
    var afterLow := if spare < p.low then idle + (p.low - spare) else idle;
    var wanted := if spare > p.high then idle - (spare - p.high) else afterLow;
    if wanted + occupied <= p.min then p.min - occupied
    else if wanted + occupied >= p.max then
      var room := p.max - occupied;
      if room <= 0 then idle else room
    else wanted
  }

  predicate Between(a: int, q: int, b: int) {
    a <= q <= b || b <= q <= a
  }

  lemma NeverNegative(p: Policy, occupied: nat, idle: nat, sessions: nat)
    ensures 0 <= DesiredIdlePods(p, occupied, idle, sessions)
  {
  }

  /** While not all of the allowed pods are occupied, the total stays within its bounds. */
  lemma TotalInBounds(p: Policy, occupied: nat, idle: nat, sessions: nat)
    requires p.min <= p.max && occupied < p.max
    ensures p.min <= occupied + DesiredIdlePods(p, occupied, idle, sessions) <= p.max
  {
  }

  /** When they are all occupied, the unoccupied pods are left alone, or given up if none is wanted. */
  lemma SaturatedLeavesAlone(p: Policy, occupied: nat, idle: nat, sessions: nat)
    requires p.min <= p.max <= occupied
    ensures DesiredIdlePods(p, occupied, idle, sessions) in {0, idle as int}
  {
  }

  /** The numbers of unoccupied pods that leave between `low` and `high` of them to spare. */
  predicate InMarks(p: Policy, sessions: nat, q: int) { sessions + p.low <= q <= sessions + p.high }

  /** Of the numbers within the marks, the one that takes the fewest pods to get to. */
  ghost predicate Nearest(p: Policy, idle: nat, sessions: nat, q: int) {
    InMarks(p, sessions, q) && forall r :: InMarks(p, sessions, r) && r != q ==> Distance(idle, q) < Distance(idle, r)
  }

  lemma NearestIs(p: Policy, idle: nat, sessions: nat, q: int)
    requires p.low <= p.high && Nearest(p, idle, sessions, q)
    ensures q == if idle < sessions + p.low then sessions + p.low
                 else if idle > sessions + p.high then sessions + p.high else idle
  {
    assert InMarks(p, sessions, sessions + p.low) && InMarks(p, sessions, sessions + p.high);
    assert InMarks(p, sessions, idle) <==> sessions + p.low <= idle <= sessions + p.high;
  }

  /**
    The target, off its bounds, is the number within the marks that is nearest; at a bound, that number lies at the
    bound or beyond it. With all allowed pods occupied nothing is added.
   */
  lemma TargetIsNearest(p: Policy, occupied: nat, idle: nat, sessions: nat, q: int)
    requires p.low <= p.high && p.min <= p.max && Nearest(p, idle, sessions, q)
    ensures var t := DesiredIdlePods(p, occupied, idle, sessions);
            && (p.min < occupied + t < p.max ==> t == q)
            && (occupied + q <= p.min ==> occupied + t == p.min)
            && (p.min < occupied + q < p.max ==> t == q)
            && (p.min < occupied + q && p.max <= occupied + q ==>
                  if occupied < p.max then occupied + t == p.max else t == idle)
  {
    NearestIs(p, idle, sessions, q);
  }

  /** Waiting sessions get their pods and the spare ones, unless that is more than the maximum allows. */
  lemma TargetServesSessions(p: Policy, occupied: nat, idle: nat, sessions: nat)
    requires p.low <= p.high && p.min <= p.max && occupied < p.max
    ensures var t := DesiredIdlePods(p, occupied, idle, sessions);
            && (sessions + p.low <= t || occupied + t == p.max)
            && (t <= sessions + p.high || occupied + t == p.min)
            && (InMarks(p, sessions, idle) && p.min <= occupied + idle <= p.max ==> t == idle)
  {
  }

  /** Anywhere on the way to the target, the target is the same. */
  lemma TargetIsStable(p: Policy, occupied: nat, idle: nat, sessions: nat, q: nat)
    requires p.low <= p.high && p.min <= p.max
    requires Between(idle, q, DesiredIdlePods(p, occupied, idle, sessions))
    ensures DesiredIdlePods(p, occupied, q, sessions) == DesiredIdlePods(p, occupied, idle, sessions)
  {
  }

  /** The target of the target is itself, for every load and every bound. */
  ghost predicate Settles(low: nat, high: nat) {
    forall min: nat, max: nat, burst: nat, occupied: nat, idle: nat, sessions: nat :: min <= max ==>
      var p := Policy(low, high, min, max, burst);
      var t := DesiredIdlePods(p, occupied, idle, sessions);
      t >= 0 && DesiredIdlePods(p, occupied, t, sessions) == t
  }

  /** With crossed water marks the autoscaler swings between them; exactly otherwise it settles. */
  lemma SettlesIffMarksOrdered(low: nat, high: nat)
    ensures Settles(low, high) <==> low <= high
  {
    if low <= high {
      forall min: nat, max: nat, burst: nat, occupied: nat, idle: nat, sessions: nat | min <= max
        ensures var p := Policy(low, high, min, max, burst);
                var t := DesiredIdlePods(p, occupied, idle, sessions);
                t >= 0 && DesiredIdlePods(p, occupied, t, sessions) == t
      {
        var p := Policy(low, high, min, max, burst);
        NeverNegative(p, occupied, idle, sessions);
        TargetIsStable(p, occupied, idle, sessions, DesiredIdlePods(p, occupied, idle, sessions));
      }
    } else {
      var p := Policy(low, high, 0, low + 1, 0);
      assert DesiredIdlePods(p, 0, 0, 0) == low && DesiredIdlePods(p, 0, low, 0) == high;
    }
  }

  // ---------- Runs of syncs ----------

  /** One sync: nothing to do at the target, otherwise at least one and at most `burst` pods towards it. */
  predicate SyncStep(p: Policy, occupied: nat, sessions: nat, u: nat, u': nat) {
    var t := DesiredIdlePods(p, occupied, u, sessions);
    if u < t then u < u' <= t && u' - u <= Burst(p)
    else if t < u then t <= u' < u && u - u' <= Burst(p)
    else u' == u
  }

  predicate SyncRun(p: Policy, occupied: nat, sessions: nat, us: seq<nat>) {
    |us| > 0 && forall i :: 0 <= i < |us| - 1 ==> SyncStep(p, occupied, sessions, us[i], us[i + 1])
  }

  function Distance(a: int, b: int): nat {
    if a < b then b - a else a - b
  }

  /** A run never overshoots: it stays between where it started and the target, which does not move. */
  lemma {:induction false} NoOvershoot(p: Policy, occupied: nat, sessions: nat, us: seq<nat>, i: nat)
    requires p.low <= p.high && p.min <= p.max && SyncRun(p, occupied, sessions, us) && i < |us|
    ensures var t := DesiredIdlePods(p, occupied, us[0], sessions);
            Between(us[0], us[i], t) && DesiredIdlePods(p, occupied, us[i], sessions) == t
  {
    if i > 0 {
      NoOvershoot(p, occupied, sessions, us, i - 1);
      assert SyncStep(p, occupied, sessions, us[i - 1], us[i - 1 + 1]);
      TargetIsStable(p, occupied, us[0], sessions, us[i]);
    }
  }

  /** Each sync comes closer, so every long enough run ends at the target and stays there. */
  lemma {:induction false} RunReachesTarget(p: Policy, occupied: nat, sessions: nat, us: seq<nat>, i: nat)
    requires p.low <= p.high && p.min <= p.max && SyncRun(p, occupied, sessions, us) && i < |us|
    ensures var t := DesiredIdlePods(p, occupied, us[0], sessions);
            || us[i] == t
            || (Distance(us[i], t) + i <= Distance(us[0], t) && Distance(us[0], t) <= Distance(us[i], t) + i * Burst(p))
    ensures i >= Distance(us[0], DesiredIdlePods(p, occupied, us[0], sessions)) ==>
              us[i] == DesiredIdlePods(p, occupied, us[0], sessions)
  {
    if i > 0 {
      RunReachesTarget(p, occupied, sessions, us, i - 1);
      NoOvershoot(p, occupied, sessions, us, i - 1);
      assert SyncStep(p, occupied, sessions, us[i - 1], us[i - 1 + 1]);
      assert i * Burst(p) == (i - 1) * Burst(p) + Burst(p);
    }
  }

  /** A run that is long enough rests within the marks, or at the bound that keeps it from them. */
  lemma RestsWithinMarks(p: Policy, occupied: nat, sessions: nat, us: seq<nat>, i: nat)
    requires p.low <= p.high && p.min <= p.max && occupied < p.max && SyncRun(p, occupied, sessions, us)
    requires Distance(us[0], DesiredIdlePods(p, occupied, us[0], sessions)) <= i < |us|
    ensures p.min <= occupied + us[i] <= p.max
    ensures p.low <= us[i] - sessions || occupied + us[i] == p.max
    ensures us[i] - sessions <= p.high || occupied + us[i] == p.min
    ensures p.min < occupied + us[i] < p.max ==> InMarks(p, sessions, us[i])
  {
    RunReachesTarget(p, occupied, sessions, us, i);
    TotalInBounds(p, occupied, us[0], sessions);
    TargetServesSessions(p, occupied, us[0], sessions);
  }

  /** A sync in which no pod fails to come or to go: a whole burst, or what is left to the target. */
  predicate FullStep(p: Policy, occupied: nat, sessions: nat, u: nat, u': nat) {
    var t := DesiredIdlePods(p, occupied, u, sessions);
    Between(u, u', t) && Distance(u, u') == Min(Distance(u, t), Burst(p))
  }

  lemma FullIsSyncStep(p: Policy, occupied: nat, sessions: nat, u: nat, u': nat)
    requires FullStep(p, occupied, sessions, u, u')
    ensures SyncStep(p, occupied, sessions, u, u')
  {
  }

  /** A run of such syncs comes closer by the burst each time, which is two pods if the policy names none. */
  lemma {:induction false} FullRun(p: Policy, occupied: nat, sessions: nat, us: seq<nat>, i: nat)
    requires p.low <= p.high && p.min <= p.max && i < |us|
    requires forall k :: 0 <= k < |us| - 1 ==> FullStep(p, occupied, sessions, us[k], us[k + 1])
    ensures var t := DesiredIdlePods(p, occupied, us[0], sessions);
            var burst := if p.burst == 0 then 2 else p.burst;
            var d := Distance(us[0], t);
            Distance(us[i], t) == if i * burst < d then d - i * burst else 0
  {
    if i > 0 {
      forall k | 0 <= k < |us| - 1
        ensures SyncStep(p, occupied, sessions, us[k], us[k + 1])
      {
        FullIsSyncStep(p, occupied, sessions, us[k], us[k + 1]);
      }
      FullRun(p, occupied, sessions, us, i - 1);
      NoOvershoot(p, occupied, sessions, us, i - 1);
      NoOvershoot(p, occupied, sessions, us, i);
      assert FullStep(p, occupied, sessions, us[i - 1], us[i - 1 + 1]);
      assert i * Burst(p) == (i - 1) * Burst(p) + Burst(p);
    }
  }
}
