/**
  The pods and sessions of one application, by state, as one flat value. These are the meanings of
  the pool's operations; the class in ApplicationPool.dfy implements them on nested mutable maps.
 */
module PoolView {
  import opened Common

  datatype PodState = PodPending | PodAllocated | PodDeleting | PodIdle
  datatype SessionState = SessionPending | SessionStarting | SessionRunning | SessionDeleting
  datatype SessionStatus = Unspecified | Pending | Starting | Available | InUse | Closing | Closed | Timeout

  /** An application session: `podRef` is the pod it is bound to, `deleted` says it has a deletion timestamp. */
  datatype Session = Session(uid: string, status: SessionStatus, podRef: Option<string>, deleted: bool, created: int,
                             openTimeout: nat)
  {
    predicate IsOpen() {
      !status.Unspecified? && !status.Pending? && !status.Closed? && !status.Timeout?
    }

    predicate IsClosing() { status.Closing? }

    predicate IsStarting() { status.Starting? }

    predicate IsPending() { !deleted && (status.Pending? || status.Unspecified?) }

    predicate IsTerminal() { status.Closed? || status.Timeout? }

    /** The state map a session belongs in; none for a terminal session. */
    function PoolState(): Option<SessionState> {
      if deleted then Some(SessionDeleting)
      else if IsOpen() then Some(SessionRunning)
      else if IsStarting() then Some(SessionStarting)
      else if IsPending() then Some(SessionPending)
      else if IsClosing() then Some(SessionDeleting)
      else None
    }
  }

  /** A session that is starting already counts as open, so nothing is ever filed under Starting. */
  lemma NothingIsStarting(s: Session)
    ensures s.PoolState() != Some(SessionStarting)
    ensures s.PoolState().None? <==> s.IsTerminal() && !s.deleted
    ensures s.PoolState() == Some(SessionDeleting) <==> s.deleted
    ensures s.PoolState() == Some(SessionPending) <==> !s.deleted && s.status in {Unspecified, Pending}
    ensures s.PoolState() == Some(SessionRunning) <==> !s.deleted && s.status in {Starting, Available, InUse, Closing}
  {
  }

  datatype PodView = PodView(state: PodState, sessions: set<string>)
  datatype SessionEntry = SessionEntry(session: Session, state: SessionState)
  datatype View = View(pods: map<string, PodView>, sessions: map<string, SessionEntry>)

  // ---------- Operations ----------

  /** Puts the pod into the given state and adds sessions to it, whatever state it was in. */
  function PutPod(v: View, name: string, state: PodState, ids: set<string>): View {
    var bound := if name in v.pods then v.pods[name].sessions else {};
    v.(pods := v.pods[name := PodView(state, bound + ids)])
  }

  /** The same, except that a pod marked for deletion stays so and no pod goes back to pending. */
  function AddOrUpdatePod(v: View, name: string, state: PodState, ids: set<string>): View {
    if name in v.pods && v.pods[name].state.PodDeleting? && !state.PodDeleting? then v
    else if name in v.pods && !v.pods[name].state.PodPending? && state.PodPending? then v
    else PutPod(v, name, state, ids)
  }

  function DeletePod(v: View, name: string): View {
    v.(pods := v.pods - {name})
  }

  /** Takes a session off a pod; an allocated pod that loses its last session becomes idle. */
  function Unbind(p: PodView, id: string): PodView {
    var left := p.sessions - {id};
    PodView(if left == {} && p.state.PodAllocated? then PodIdle else p.state, left)
  }

  function DeleteSession(v: View, s: Session): View {
    var pods := if s.podRef.Some? && s.podRef.value in v.pods
                then v.pods[s.podRef.value := Unbind(v.pods[s.podRef.value], s.uid)] else v.pods;
    View(pods, v.sessions - {s.uid})
  }

  /** Files a session under its state and allocates the pod it refers to; a terminal session is removed instead. */
  function AddSession(v: View, s: Session): View {
    if s.PoolState().None? then DeleteSession(v, s)
    else
      var filed := v.(sessions := v.sessions[s.uid := SessionEntry(s, s.PoolState().value)]);
      if s.podRef.Some? then PutPod(filed, s.podRef.value, PodAllocated, {s.uid}) else filed
  }

  /** `updateSessionPool`, with the time at which it stamps the session. */
  function UpdateSessionPool(v: View, s: Session, now: int): View {
    if s.IsTerminal() then DeleteSession(v, s) else AddSession(v, s.(created := now))
  }

  /** Sets the status of a filed session without filing it again. */
  function Touch(v: View, id: string, status: SessionStatus): View {
    if id !in v.sessions then v
    else
      var e := v.sessions[id];
      v.(sessions := v.sessions[id := e.(session := e.session.(status := status))])
  }

  // ---------- The invariant ----------

  /** A pod that is not being deleted is allocated exactly when sessions are bound to it. */
  predicate Consistent(p: PodView) {
    !p.state.PodDeleting? ==> (p.state.PodAllocated? <==> p.sessions != {})
  }

  predicate FiledRight(id: string, e: SessionEntry) {
    e.session.uid == id && !e.state.SessionStarting? && (e.state.SessionDeleting? <==> e.session.deleted)
  }

  ghost predicate Inv(v: View) {
    && (forall n :: n in v.pods ==> Consistent(v.pods[n]))
    && (forall id :: id in v.sessions ==> FiledRight(id, v.sessions[id]))
  }

  /** The pool calls that handlers make; which of them are safe depends on the pod they find. */
  datatype Op =
    | PodAs(name: string, state: PodState, ids: set<string>)
    | PodGone(name: string)
    | SessionSeen(s: Session)
    | SessionGone(s: Session)
    | SessionTouched(id: string, status: SessionStatus)  // a status set in place

  function Apply(v: View, op: Op): View {
    match op
    case PodAs(name, state, ids) => AddOrUpdatePod(v, name, state, ids)
    case PodGone(name) => DeletePod(v, name)
    case SessionSeen(s) => AddSession(v, s)
    case SessionGone(s) => DeleteSession(v, s)
    case SessionTouched(id, status) => Touch(v, id, status)
  }

  /**
    What the handlers guarantee of a call: only `PodAllocated` brings sessions, and it always does;
    a pod with sessions is not made idle or pending.
   */
  predicate Allowed(v: View, op: Op) {
    op.PodAs? ==>
      && (op.state.PodAllocated? ==> op.ids != {})
      && (op.state.PodDeleting? ==> op.ids == {})
      && (op.state.PodIdle? || op.state.PodPending? ==>
            op.ids == {} && (op.name in v.pods ==> !v.pods[op.name].state.PodAllocated?))
  }

  lemma ApplyKeepsInv(v: View, op: Op)
    requires Inv(v) && Allowed(v, op)
    ensures Inv(Apply(v, op))
  {
  }

  ghost predicate AllowedRun(v: View, ops: seq<Op>)
    decreases |ops|
  {
    ops == [] || (Allowed(v, ops[0]) && AllowedRun(Apply(v, ops[0]), ops[1..]))
  }

  ghost function ApplyAll(v: View, ops: seq<Op>): View
    decreases |ops|
  {
    if ops == [] then v else ApplyAll(Apply(v, ops[0]), ops[1..])
  }

  /** Over every run of calls the handlers make, allocated and bound stay the same thing. */
  lemma {:induction false} RunKeepsInv(v: View, ops: seq<Op>)
    requires Inv(v) && AllowedRun(v, ops)
    ensures Inv(ApplyAll(v, ops))
    decreases |ops|
  {
    if ops != [] {
      ApplyKeepsInv(v, ops[0]);
      RunKeepsInv(Apply(v, ops[0]), ops[1..]);
    }
  }

  /** No call takes a pod back to pending, and a pod becomes known as pending only under its own name. */
  lemma NeverPendingAgain(v: View, op: Op, n: string)
    requires n in Apply(v, op).pods && Apply(v, op).pods[n].state.PodPending?
    ensures if n in v.pods then v.pods[n].state.PodPending? else op.PodAs? && op.name == n && op.state.PodPending?
  {
  }

  /** A pod that is free to change takes the state it is given and keeps its sessions. */
  lemma PodTakesState(v: View, n: string, state: PodState, ids: set<string>)
    requires n in v.pods ==> v.pods[n].state.PodPending? || (v.pods[n].state.PodIdle? && !state.PodPending?)
    ensures var w := AddOrUpdatePod(v, n, state, ids);
            && n in w.pods && w.pods[n].state == state && ids <= w.pods[n].sessions && w.sessions == v.sessions
            && (forall id :: id in w.pods[n].sessions ==> id in ids || (n in v.pods && id in v.pods[n].sessions))
            && (n in v.pods ==> v.pods[n].sessions <= w.pods[n].sessions)
            && (forall m :: m != n ==> (m in w.pods <==> m in v.pods) && (m in v.pods ==> w.pods[m] == v.pods[m]))
  {
  }

  /** A session that is filed is on file as it is, under its state, and its pod is allocated to it. */
  lemma SessionIsFiled(v: View, s: Session)
    requires s.PoolState().Some?
    ensures var w := AddSession(v, s);
            && s.uid in w.sessions && w.sessions[s.uid].session == s && w.sessions[s.uid].state == s.PoolState().value
            && (forall id :: id != s.uid ==>
                  (id in w.sessions <==> id in v.sessions) && (id in v.sessions ==> w.sessions[id] == v.sessions[id]))
            && (s.podRef.Some? ==>
                  && s.podRef.value in w.pods && w.pods[s.podRef.value].state.PodAllocated?
                  && s.uid in w.pods[s.podRef.value].sessions)
            && (forall n :: s.podRef != Some(n) ==>
                  (n in w.pods <==> n in v.pods) && (n in v.pods ==> w.pods[n] == v.pods[n]))
  {
  }

  /** A session that leaves is off its pod, which is free if it was allocated to that session alone. */
  lemma SessionLeaves(v: View, s: Session)
    ensures var w := DeleteSession(v, s);
            && s.uid !in w.sessions && w.pods.Keys == v.pods.Keys
            && (forall id :: id != s.uid ==>
                  (id in w.sessions <==> id in v.sessions) && (id in v.sessions ==> w.sessions[id] == v.sessions[id]))
            && (forall n :: n in v.pods ==>
                  if s.podRef == Some(n) then
                    && w.pods[n].sessions == v.pods[n].sessions - {s.uid}
                    && (v.pods[n].state.PodAllocated? && v.pods[n].sessions <= {s.uid} ==> w.pods[n].state.PodIdle?)
                    && (!v.pods[n].state.PodAllocated? || !(v.pods[n].sessions <= {s.uid}) ==>
                          w.pods[n].state == v.pods[n].state)
                  else w.pods[n] == v.pods[n])
  {
  }

  /** What an update of a session amounts to: it leaves if it ended, and is on file with the new stamp otherwise. */
  lemma UpdateFiles(v: View, s: Session, now: int)
    ensures var w := UpdateSessionPool(v, s, now);
            && (s.uid in w.sessions <==> !s.IsTerminal())
            && (s.uid in w.sessions ==>
                  && w.sessions[s.uid].session == Session(s.uid, s.status, s.podRef, s.deleted, now, s.openTimeout)
                  && (w.sessions[s.uid].state.SessionDeleting? <==> s.deleted)
                  && (w.sessions[s.uid].state.SessionPending? <==> !s.deleted && s.status in {Unspecified, Pending}))
            && (s.IsTerminal() && s.podRef.Some? && s.podRef.value in w.pods ==>
                  s.uid !in w.pods[s.podRef.value].sessions)
            && (!s.IsTerminal() && s.podRef.Some? ==>
                  s.podRef.value in w.pods && s.uid in w.pods[s.podRef.value].sessions)
  {
  }

  /**
    Deletion marks are sticky against everything the pod guard sees, but filing a live session that
    refers to the pod goes around the guard: exactly then a pod comes back from deletion.
   */
  lemma DeletionRevertedIff(v: View, op: Op, n: string)
    requires n in v.pods && v.pods[n].state.PodDeleting?
    ensures (n in Apply(v, op).pods && !Apply(v, op).pods[n].state.PodDeleting?) <==>
            op.SessionSeen? && op.s.podRef == Some(n) && (op.s.deleted || !op.s.IsTerminal())
  {
  }

  /** A pod marked for deletion, and then a session that refers to it: calls that handlers make, one after the other. */
  lemma DeletionReverted(p: string, s: Session)
    requires s.podRef == Some(p) && s.status.Available? && !s.deleted
    ensures var ops := [PodAs(p, PodIdle, {}), PodAs(p, PodDeleting, {}), SessionSeen(s)];
            && AllowedRun(View(map[], map[]), ops)
            && ApplyAll(View(map[], map[]), ops[..2]).pods == map[p := PodView(PodDeleting, {})]
            && ApplyAll(View(map[], map[]), ops).pods == map[p := PodView(PodAllocated, {s.uid})]
  {
    var ops := [PodAs(p, PodIdle, {}), PodAs(p, PodDeleting, {}), SessionSeen(s)];
    var v := Apply(View(map[], map[]), ops[0]);
    var w := Apply(v, ops[1]);
    assert ops[1..] == [ops[1], ops[2]] && ops[1..][1..] == [ops[2]] && ops[1..][1..][1..] == [];
    assert ops[..2][1..] == [ops[1]] && ops[..2][1..][1..] == [];
    assert v.pods == map[p := PodView(PodIdle, {})] && w.pods == map[p := PodView(PodDeleting, {})];
    assert {} + {s.uid} == {s.uid} && s.PoolState() == Some(SessionRunning);
    assert Apply(w, ops[2]).pods == map[p := PodView(PodAllocated, {s.uid})];
    assert AllowedRun(w, [ops[2]]) && AllowedRun(v, [ops[1], ops[2]]);
    assert ApplyAll(v, [ops[1]]) == ApplyAll(w, []) && ApplyAll(w, [ops[2]]) == ApplyAll(Apply(w, ops[2]), []);
  }

  // ---------- Session timeouts ----------

  const SECOND: int := 1_000_000_000
  const DEFAULT_OPEN_TIMEOUT: int := 10 * SECOND

  /** The session has waited longer than its own, or the default, time to be opened. */
  predicate TimedOut(s: Session, now: int) {
    s.created < now - if s.openTimeout > 0 then s.openTimeout * SECOND else DEFAULT_OPEN_TIMEOUT
  }

  /** A session times out once its own number of seconds, or ten, have passed since its stamp, and stays so. */
  lemma TimesOutAfter(s: Session, elapsed: int)
    ensures s.openTimeout == 0 ==> (TimedOut(s, s.created + elapsed) <==> elapsed > 10_000_000_000)
    ensures s.openTimeout > 0 ==> (TimedOut(s, s.created + elapsed) <==> elapsed > s.openTimeout * 1_000_000_000)
  {
  }

  /** `xs` lists, once each, exactly the filed sessions in a state of `sts` that are (or are not) timed out. */
  ghost predicate Lists(v: View, xs: seq<Session>, sts: set<SessionState>, late: set<bool>, now: int) {
    && (forall i, j :: 0 <= i < j < |xs| ==> xs[i].uid != xs[j].uid)
    && (forall i :: 0 <= i < |xs| ==> xs[i].uid in v.sessions && v.sessions[xs[i].uid].session == xs[i]
                                      && v.sessions[xs[i].uid].state in sts && TimedOut(xs[i], now) in late)
    && (forall id :: id in v.sessions && v.sessions[id].state in sts
                     && TimedOut(v.sessions[id].session, now) in late ==>
          v.sessions[id].session in xs)
  }

  // ---------- Counting ----------

  ghost function InState(v: View, st: PodState): set<string> {
    set n | n in v.pods && v.pods[n].state == st
  }

  lemma DisjointUnion(a: set<string>, b: set<string>)
    requires a !! b
    ensures |a + b| == |a| + |b|
  {
  }

  /** The four state counts of the summary add up to the number of distinct pods. */
  lemma CountsAddUp(v: View)
    ensures |InState(v, PodPending)| + |InState(v, PodDeleting)| + |InState(v, PodIdle)| + |InState(v, PodAllocated)|
            == |v.pods|
  {
    var a, b, c, d := InState(v, PodPending), InState(v, PodDeleting), InState(v, PodIdle), InState(v, PodAllocated);
    assert (a + b) + (c + d) == v.pods.Keys && |v.pods.Keys| == |v.pods|;
    assert a !! b && c !! d && a + b !! c + d;
    hide InState;
    DisjointUnion(a, b);
    DisjointUnion(c, d);
    DisjointUnion(a + b, c + d);
  }
}
