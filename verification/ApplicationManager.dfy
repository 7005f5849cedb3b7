/**
  The application manager's handlers and its sync: pod events and session events change the pool, and
  a sync assigns pending sessions to idle pods, cleans up sessions, and scales the pods. What the pod
  manager, the nodes and the session store answer is arbitrary.
 */
module ApplicationManager {
  import opened Common
  import opened PoolView
  import opened ApplicationPool
  import opened Autoscaler

  // ---------- The rest of the system ----------

  datatype Phase = PhasePending | PhaseRunning | PhaseSucceeded | PhaseFailed | PhaseUnknown

  /** What the pod manager knows of a pod; the flags stand for comparisons with the clock. */
  datatype PodInfo = PodInfo(phase: Phase, hasHostIP: bool, startedLongAgo: bool, deletionTimedOut: bool)

  datatype TerminateReply = Terminating | PodNotFound | TerminateFailed
  datatype CreateReply = Created(name: string) | NamespaceTerminating | CreateFailed

  /** What the pod manager knows during a call, and which pods take a session that is offered to them. */
  datatype Answers = Answers(known: map<string, PodInfo>, accepting: set<string>)

  function FindPod(env: Answers, name: string): Option<PodInfo> {
    if name in env.known then Some(env.known[name]) else None
  }

  method TerminatePod(name: string) returns (reply: TerminateReply) { reply := *; }

  method CreatePod() returns (reply: CreateReply) { reply := *; }

  method CloseSession(pod: string, s: Session) returns (ok: bool) { ok := *; }

  method OpenSession(pod: string, s: Session, env: Answers) returns (ok: bool)
    ensures ok == (pod in env.accepting)
  {
    ok := pod in env.accepting;
  }

  method StoreSessionStatus(s: Session) returns (ok: bool) { ok := *; }

  // ---------- Deleting one pod ----------

  /** Nothing happened to the pod, or it was marked for deletion, or marked and then forgotten. */
  ghost predicate MarkedForDeletion(v: View, v': View, name: string) {
    || v' == v
    || (name in v.pods && v' == AddOrUpdatePod(v, name, PodDeleting, {}))
    || (name in v.pods && v' == DeletePod(AddOrUpdatePod(v, name, PodDeleting, {}), name))
  }

  lemma MarkKeepsInv(v: View, v': View, name: string)
    requires Inv(v) && MarkedForDeletion(v, v', name)
    ensures Inv(v') && v'.sessions == v.sessions
    ensures forall n :: n != name ==> (n in v'.pods <==> n in v.pods) && (n in v.pods ==> v'.pods[n] == v.pods[n])
    ensures name in v'.pods ==> name in v.pods && v'.pods[name].sessions == v.pods[name].sessions
    ensures name in v'.pods ==> v'.pods[name] == v.pods[name] || v'.pods[name].state.PodDeleting?
  {
    if name in v.pods { assert v.pods[name].sessions + {} == v.pods[name].sessions; }
  }

  /** The deletion of the pod was asked for before, and there is no need to ask again yet. */
  predicate AlreadyDeleting(v: View, env: Answers, name: string) {
    && name in v.pods && v.pods[name].state.PodDeleting?
    && (name !in env.known || !env.known[name].deletionTimedOut)
  }

  /** `asked` is whether the pod manager was asked to terminate the pod. */
  method DeleteApplicationPod(pool: Pool, podName: string, env: Answers) returns (ok: bool, asked: bool)
    requires pool.Valid() && Inv(pool.view)
    modifies pool, pool.repr
    ensures pool.Valid() && Inv(pool.view) && fresh(pool.repr - old(pool.repr))
    ensures MarkedForDeletion(old(pool.view), pool.view, podName)
    ensures if podName !in old(pool.view).pods || AlreadyDeleting(old(pool.view), env, podName)
            then ok && pool.view == old(pool.view)
            else || pool.view == AddOrUpdatePod(old(pool.view), podName, PodDeleting, {})
                 || (ok && pool.view == DeletePod(old(pool.view), podName))
    ensures podName in pool.view.pods ==> pool.view.pods[podName].state.PodDeleting?
    ensures !ok ==> podName in pool.view.pods
    ensures asked <==>
            && podName in old(pool.view).pods
            && (old(pool.view).pods[podName].state.PodDeleting? ==>
                  podName in env.known && env.known[podName].deletionTimedOut)
  {
    hide Pool.Valid, Inv;
    var pod := pool.GetPod(podName);
    if pod == null { return true, false; }
    pool.StateOf(podName);
    if pod.state == PodDeleting {
      var info := FindPod(env, podName);
      if info.None? || !info.value.deletionTimedOut {
        return true, false;
      }
    }
    pool.AddOrUpdatePod(podName, PodDeleting, {});
    asked := true;
    var reply := TerminatePod(podName);
    match reply {
      case PodNotFound =>
        pool.DeletePod(podName);
        MarkThenForget(old(pool.view), podName);
        ok := true;
      case TerminateFailed => ok := false;
      case Terminating => ok := true;
    }
    MarkKeepsInv(old(pool.view), pool.view, podName);
  }

  lemma MarkThenForget(v: View, name: string)
    requires name in v.pods
    ensures DeletePod(AddOrUpdatePod(v, name, PodDeleting, {}), name) == DeletePod(v, name)
  {
  }

  // ---------- Closing one session ----------

  /** Sessions were at most taken off pods; an allocated pod that lost its last one became idle. */
  ghost predicate UnboundOnly(v: View, v': View) {
    && v'.pods.Keys == v.pods.Keys
    && forall n :: n in v.pods ==>
         && v'.pods[n].sessions <= v.pods[n].sessions
         && (v'.pods[n].state == v.pods[n].state
             || (v.pods[n].state.PodAllocated? && v'.pods[n] == PodView(PodIdle, {})))
  }

  lemma UnboundTransitive(a: View, b: View, c: View)
    requires UnboundOnly(a, b) && UnboundOnly(b, c)
    ensures UnboundOnly(a, c)
  {
  }

  lemma CloseKeepsInv(v: View, s: Session, status: SessionStatus)
    requires Inv(v)
    ensures Inv(Touch(v, s.uid, status)) && UnboundOnly(v, Touch(v, s.uid, status))
    ensures Inv(DeleteSession(v, s)) && UnboundOnly(v, DeleteSession(v, s))
  {
    ApplyKeepsInv(v, SessionTouched(s.uid, status));
    ApplyKeepsInv(v, SessionGone(s));
  }

  /**
    What closing a session does to the pool: nothing if it is closing; an open one is marked, as closing if
    its pod is known and as closed otherwise; a pending one times out; one that is not open leaves the pool.
   */
  ghost predicate SessionClosed(v: View, v': View, s: Session, env: Answers, ok: bool) {
    if s.IsClosing() then v' == v && ok
    else if s.IsOpen() then
      if s.podRef.None? then v' == v && ok
      else if s.podRef.value in env.known then v' == Touch(v, s.uid, Closing)
      else v' == Touch(v, s.uid, Closed) && ok
    else if s.IsPending() then
      v' == if ok then DeleteSession(Touch(v, s.uid, Timeout), s) else Touch(v, s.uid, Timeout)
    else v' == DeleteSession(v, s) && ok
  }

  method DeleteApplicationSession(pool: Pool, s: Session, env: Answers) returns (ok: bool)
    requires pool.Valid() && Inv(pool.view)
    modifies pool, pool.repr
    ensures pool.Valid() && Inv(pool.view) && pool.repr == old(pool.repr)
    ensures UnboundOnly(old(pool.view), pool.view) && SessionClosed(old(pool.view), pool.view, s, env, ok)
  {
    hide Pool.Valid, Inv, UnboundOnly;
    UnboundRefl(pool.view);
    if s.IsClosing() {
      return true;
    } else if s.IsOpen() {
      ok := true;
      if s.podRef.Some? {
        var info := FindPod(env, s.podRef.value);
        var status := if info.Some? then Closing else Closed;
        CloseKeepsInv(pool.view, s, status);
        pool.TouchSession(s.uid, status);
        var stored := StoreSessionStatus(s.(status := status));
        if info.Some? {
          ok := CloseSession(s.podRef.value, s.(status := Closing));
        }
      }
    } else {
      var closed := s;
      if s.IsPending() {
        CloseKeepsInv(pool.view, s, Timeout);
        pool.TouchSession(s.uid, Timeout);
        closed := s.(status := Timeout);
        ok := StoreSessionStatus(closed);
        if !ok { return; }
      }
      CloseKeepsInv(pool.view, closed, Timeout);
      UnboundTransitiveAll();
      pool.DeleteSession(closed);
      ok := true;
    }
  }

  /** What becomes of a session on file, and of its pod. */
  lemma ClosedMeans(v: View, v': View, s: Session, env: Answers, ok: bool)
    requires SessionClosed(v, v', s, env, ok) && s.uid in v.sessions && v.sessions[s.uid].session == s
    ensures s.status.Closing? || (s.IsOpen() && s.podRef.None?) ==> ok && v' == v
    ensures s.IsOpen() && !s.status.Closing? && s.podRef.Some? ==>
              && v'.pods == v.pods && v'.sessions.Keys == v.sessions.Keys
              && v'.sessions[s.uid].session.status == (if s.podRef.value in env.known then Closing else Closed)
              && v'.sessions[s.uid].state == v.sessions[s.uid].state
    ensures s.IsPending() && !ok ==>
              s.uid in v'.sessions && v'.sessions[s.uid].session.status.Timeout? && v'.pods == v.pods
    ensures !s.IsOpen() && ok ==>
              && s.uid !in v'.sessions
              && (s.podRef.Some? && s.podRef.value in v'.pods ==> s.uid !in v'.pods[s.podRef.value].sessions)
    ensures forall id :: id in v.sessions && id != s.uid ==> id in v'.sessions && v'.sessions[id] == v.sessions[id]
  {
  }

  lemma ClosedSessions(v: View, v': View, s: Session, env: Answers, ok: bool)
    requires SessionClosed(v, v', s, env, ok)
    ensures v'.sessions.Keys <= v.sessions.Keys
    ensures forall id :: id in v.sessions && id !in v'.sessions ==> id == s.uid
    ensures ok && !s.IsOpen() ==> s.uid !in v'.sessions
  {
  }

  ghost function Uids(list: seq<Session>): set<string> {
    set s | s in list :: s.uid
  }

  /** Sessions other than these are as they were, and stay on their pods. */
  ghost predicate SparesOthers(v: View, v': View, ids: set<string>) {
    && (forall id :: id in v.sessions && id !in ids ==> id in v'.sessions && v'.sessions[id] == v.sessions[id])
    && (forall n, id :: n in v.pods && id in v.pods[n].sessions && id !in ids ==>
          n in v'.pods && id in v'.pods[n].sessions)
  }

  lemma ClosingSparesOthers(v: View, v': View, s: Session, env: Answers, ok: bool)
    requires SessionClosed(v, v', s, env, ok)
    ensures SparesOthers(v, v', {s.uid})
  {
  }

  lemma SparedTwice(a: View, b: View, c: View, ids: set<string>, more: set<string>)
    requires SparesOthers(a, b, ids) && SparesOthers(b, c, more)
    ensures SparesOthers(a, c, ids + more)
  {
  }

  /** The status that an open session gets: one that is closing, or has no pod, keeps its own. */
  function ClosedAs(s: Session, env: Answers): SessionStatus {
    if s.IsClosing() || s.podRef.None? then s.status else if s.podRef.value in env.known then Closing else Closed
  }

  /** A session on file was dealt with: an open one is marked; any other is gone, or timed out and not stored. */
  predicate Dealt(v: View, e: SessionEntry, env: Answers) {
    var s := e.session;
    if s.IsOpen()
    then s.uid in v.sessions && v.sessions[s.uid] == e.(session := s.(status := ClosedAs(s, env)))
    else s.uid in v.sessions ==> s.IsPending() && v.sessions[s.uid] == e.(session := s.(status := Timeout))
  }

  ghost predicate AllDealt(v: View, v': View, ids: set<string>, env: Answers) {
    forall id :: id in v.sessions && id in ids ==> Dealt(v', v.sessions[id], env)
  }

  lemma OneDealt(v: View, v': View, e: SessionEntry, env: Answers, ok: bool)
    requires SessionClosed(v, v', e.session, env, ok)
    requires (e.session.uid in v.sessions && v.sessions[e.session.uid] == e) || Dealt(v, e, env)
    ensures Dealt(v', e, env)
  {
  }

  lemma DealtStays(v: View, v': View, e: SessionEntry, env: Answers, ids: set<string>)
    requires Dealt(v, e, env) && SparesOthers(v, v', ids) && e.session.uid !in ids
    requires v'.sessions.Keys <= v.sessions.Keys
    ensures Dealt(v', e, env)
  {
  }

  lemma AllDealtStays(v: View, w: View, w': View, ids: set<string>, more: set<string>, env: Answers)
    requires AllDealt(v, w, ids, env) && SparesOthers(w, w', more) && w'.sessions.Keys <= w.sessions.Keys
    requires ids !! more && forall id :: id in v.sessions ==> v.sessions[id].session.uid == id
    ensures AllDealt(v, w', ids, env)
  {
    forall id | id in v.sessions && id in ids
      ensures Dealt(w', v.sessions[id], env)
    {
      DealtStays(w, w', v.sessions[id], env, more);
    }
  }

  lemma OneMoreDealt(v: View, w: View, w': View, ids: set<string>, s: Session, env: Answers, ok: bool)
    requires AllDealt(v, w, ids, env) && SparesOthers(v, w, ids) && SessionClosed(w, w', s, env, ok)
    requires s.uid in v.sessions && v.sessions[s.uid].session == s
    requires forall id :: id in v.sessions ==> v.sessions[id].session.uid == id
    ensures AllDealt(v, w', ids + {s.uid}, env)
  {
    OneDealt(w, w', v.sessions[s.uid], env, ok);
    ClosingSparesOthers(w, w', s, env, ok);
    ClosedSessions(w, w', s, env, ok);
    forall id | id in v.sessions && id in ids && id != s.uid
      ensures Dealt(w', v.sessions[id], env)
    {
      DealtStays(w, w', v.sessions[id], env, {s.uid});
    }
  }

  lemma UidsSnoc(list: seq<Session>, i: nat)
    requires i < |list|
    ensures Uids(list[..i + 1]) == Uids(list[..i]) + {list[i].uid}
  {
    assert list[..i + 1] == list[..i] + [list[i]];
  }

  lemma UnboundRefl(v: View)
    ensures UnboundOnly(v, v)
  {
  }

  lemma UnboundTransitiveAll()
    ensures forall a, b, c :: UnboundOnly(a, b) && UnboundOnly(b, c) ==> UnboundOnly(a, c)
  {
    forall a, b, c | UnboundOnly(a, b) && UnboundOnly(b, c) ensures UnboundOnly(a, c) { UnboundTransitive(a, b, c); }
  }

  /** Closes every session of a list; if all went well, none of those that were not open is left. */
  method DeleteSessions(pool: Pool, list: seq<Session>, env: Answers) returns (ok: bool)
    requires pool.Valid() && Inv(pool.view)
    modifies pool, pool.repr
    ensures pool.Valid() && Inv(pool.view) && pool.repr == old(pool.repr)
    ensures UnboundOnly(old(pool.view), pool.view)
    ensures pool.view.sessions.Keys <= old(pool.view).sessions.Keys
    ensures forall id :: id in old(pool.view).sessions && (forall k :: 0 <= k < |list| ==> list[k].uid != id) ==>
              id in pool.view.sessions
    ensures SparesOthers(old(pool.view), pool.view, Uids(list))
    ensures OnFile(old(pool.view), list) ==> AllDealt(old(pool.view), pool.view, Uids(list), env)
    ensures ok ==> forall k :: 0 <= k < |list| && !list[k].IsOpen() ==> list[k].uid !in pool.view.sessions
  {
    hide Pool.Valid, Inv, UnboundOnly, SessionClosed, SparesOthers, Uids, AllDealt;
    UnboundRefl(pool.view);
    FiledUnderUid(pool.view);
    assert AllDealt(pool.view, pool.view, Uids(list[..0]), env) by { NoneDealt(pool.view, list[..0], env); }
    assert SparesOthers(pool.view, pool.view, Uids(list[..0])) by { NoneClosed(pool.view, Uids(list[..0])); }
    ok := true;
    for i := 0 to |list|
      invariant pool.Valid() && Inv(pool.view) && pool.repr == old(pool.repr)
      invariant UnboundOnly(old(pool.view), pool.view)
      invariant pool.view.sessions.Keys <= old(pool.view).sessions.Keys
      invariant forall id :: id in old(pool.view).sessions && (forall k :: 0 <= k < i ==> list[k].uid != id) ==>
                  id in pool.view.sessions
      invariant SparesOthers(old(pool.view), pool.view, Uids(list[..i]))
      invariant OnFile(old(pool.view), list) ==> AllDealt(old(pool.view), pool.view, Uids(list[..i]), env)
      invariant ok ==> forall k :: 0 <= k < i && !list[k].IsOpen() ==> list[k].uid !in pool.view.sessions
    {
      ghost var before := pool.view;
      var one := DeleteApplicationSession(pool, list[i], env);
      ClosingSparesOthers(before, pool.view, list[i], env, one);
      SparedTwice(old(pool.view), before, pool.view, Uids(list[..i]), {list[i].uid});
      UidsSnoc(list, i);
      if OnFile(old(pool.view), list) {
        OneMoreDealt(old(pool.view), before, pool.view, Uids(list[..i]), list[i], env, one);
      }
      ClosedSessions(before, pool.view, list[i], env, one);
      UnboundTransitive(old(pool.view), before, pool.view);
      ok := ok && one;
    }
    assert list[..|list|] == list;
  }

  lemma NoneDealt(v: View, none: seq<Session>, env: Answers)
    requires none == []
    ensures AllDealt(v, v, Uids(none), env)
  {
  }

  lemma NoneClosed(v: View, ids: set<string>)
    ensures SparesOthers(v, v, ids)
  {
  }

  // ---------- Pod events ----------

  /** A pod reported by a node: its phase, and the sessions named in its label, if it has one. */
  datatype Report = Report(name: string, phase: Phase, sessionLabel: Option<set<string>>, hasDeletionTimestamp: bool)

  /** A session label is split at commas, so it names at least one session. */
  predicate GoodReport(r: Report) {
    r.sessionLabel.Some? ==> r.sessionLabel.value != {}
  }

  /** What a report does to a pod that is not marked for deletion. */
  function Reported(v: View, r: Report): View {
    if r.name in v.pods && v.pods[r.name].state.PodAllocated? then v
    else match r.phase
         case PhasePending => AddOrUpdatePod(v, r.name, PodPending, {})
         case PhaseRunning =>
           if r.sessionLabel.Some? then AddOrUpdatePod(v, r.name, PodAllocated, r.sessionLabel.value)
           else AddOrUpdatePod(v, r.name, PodIdle, {})
         case _ => v
  }

  lemma ReportKeepsInv(v: View, r: Report)
    requires Inv(v) && GoodReport(r)
    ensures Inv(Reported(v, r))
  {
    if !(r.name in v.pods && v.pods[r.name].state.PodAllocated?) {
      match r.phase
      case PhasePending => ApplyKeepsInv(v, PodAs(r.name, PodPending, {}));
      case PhaseRunning =>
        if r.sessionLabel.Some? {
          ApplyKeepsInv(v, PodAs(r.name, PodAllocated, r.sessionLabel.value));
        } else {
          ApplyKeepsInv(v, PodAs(r.name, PodIdle, {}));
        }
      case _ =>
    }
  }

  ghost predicate OthersUntouched(v: View, v': View, name: string) {
    forall n :: n != name ==> (n in v'.pods <==> n in v.pods) && (n in v.pods ==> v'.pods[n] == v.pods[n])
  }

  /** The pod of the report is neither being deleted nor taken by a session. */
  predicate Settled(v: View, r: Report) {
    r.name in v.pods ==> !v.pods[r.name].state.PodDeleting? && !v.pods[r.name].state.PodAllocated?
  }

  /**
    Where the report puts such a pod: running, it is free for a session, or taken by those that its label names;
    pending, it waits if it was not known; ended, it is left to the pod manager's removal.
   */
  ghost predicate TakesPlace(v: View, v': View, r: Report) {
    match r.phase
    case PhaseRunning =>
      && r.name in v'.pods
      && (r.sessionLabel.None? ==> v'.pods[r.name] == PodView(PodIdle, {}))
      && (r.sessionLabel.Some? ==> v'.pods[r.name] == PodView(PodAllocated, r.sessionLabel.value))
    case PhasePending =>
      && r.name in v'.pods
      && v'.pods[r.name] == if r.name in v.pods then v.pods[r.name] else PodView(PodPending, {})
    case _ => v' == v
  }

  lemma ReportPlaces(v: View, r: Report)
    requires Inv(v)
    ensures Settled(v, r) ==> TakesPlace(v, Reported(v, r), r)
    ensures OthersUntouched(v, Reported(v, r), r.name) && Reported(v, r).sessions == v.sessions
  {
    if r.name in v.pods {
      assert Consistent(v.pods[r.name]);
      assert v.pods[r.name].sessions + {} == v.pods[r.name].sessions;
    }
  }

  method HandlePodAddUpdateFromNode(pool: Pool, r: Report, env: Answers) returns (asked: bool)
    requires pool.Valid() && Inv(pool.view) && GoodReport(r)
    modifies pool, pool.repr
    ensures pool.Valid() && Inv(pool.view) && fresh(pool.repr - old(pool.repr))
    ensures if r.name in old(pool.view).pods && old(pool.view).pods[r.name].state.PodDeleting?
            then MarkedForDeletion(old(pool.view), pool.view, r.name)
            else pool.view == Reported(old(pool.view), r)
    ensures pool.view.sessions == old(pool.view).sessions && OthersUntouched(old(pool.view), pool.view, r.name)
    ensures Settled(old(pool.view), r) ==> TakesPlace(old(pool.view), pool.view, r)
    ensures r.name in old(pool.view).pods && old(pool.view).pods[r.name].state.PodAllocated? ==>
              pool.view == old(pool.view)
    ensures asked <==>
            && r.name in old(pool.view).pods && old(pool.view).pods[r.name].state.PodDeleting?
            && r.name in env.known && env.known[r.name].deletionTimedOut
  {
    hide Pool.Valid, Inv;
    ReportKeepsInv(pool.view, r);
    ReportPlaces(pool.view, r);
    asked := false;
    var ap := pool.GetPod(r.name);
    if ap != null {
      pool.StateOf(r.name);
      if ap.state == PodDeleting {
        var _, one := DeleteApplicationPod(pool, r.name, env);
        asked := one;
        MarkKeepsInv(old(pool.view), pool.view, r.name);
        return;
      }
      if ap.state == PodAllocated {
        return;
      }
    }
    match r.phase {
      case PhasePending =>
        if ap != null && ap.state == PodPending {
          StillPending(pool.view, r.name);
          return;
        }
        pool.AddOrUpdatePod(r.name, PodPending, {});
      case PhaseRunning =>
        if r.sessionLabel.Some? {
          pool.AddOrUpdatePod(r.name, PodAllocated, r.sessionLabel.value);
        } else {
          pool.AddOrUpdatePod(r.name, PodIdle, {});
        }
      case _ =>
    }
  }

  lemma StillPending(v: View, n: string)
    requires n in v.pods && v.pods[n].state.PodPending?
    ensures AddOrUpdatePod(v, n, PodPending, {}) == v
  {
    assert v.pods[n].sessions + {} == v.pods[n].sessions;
    assert v.pods[n := v.pods[n]] == v.pods;
  }

  ghost predicate BoundTo(v: View, id: string, pod: string) {
    pod in v.pods && id in v.pods[pod].sessions
  }

  /** A pod is gone from its node: its sessions are closed and it is forgotten. */
  method HandlePodDeleteFromNode(pool: Pool, r: Report, env: Answers)
    requires pool.Valid() && Inv(pool.view) && GoodReport(r)
    modifies pool, pool.repr
    ensures pool.Valid() && Inv(pool.view) && fresh(pool.repr - old(pool.repr))
    ensures r.hasDeletionTimestamp ==> UnboundOnly(DeletePod(old(pool.view), r.name), pool.view)
    ensures r.hasDeletionTimestamp ==> pool.view.sessions.Keys <= old(pool.view).sessions.Keys
    ensures r.hasDeletionTimestamp ==>
              forall id :: id in old(pool.view).sessions && !BoundTo(old(pool.view), id, r.name) ==>
                id in pool.view.sessions && pool.view.sessions[id] == old(pool.view).sessions[id]
    ensures r.hasDeletionTimestamp ==>
              forall id :: id in old(pool.view).sessions && BoundTo(old(pool.view), id, r.name) ==>
                Dealt(pool.view, old(pool.view).sessions[id], env)
    ensures r.hasDeletionTimestamp ==> r.name !in pool.view.pods
    ensures !r.hasDeletionTimestamp ==>
              if r.name in old(pool.view).pods && old(pool.view).pods[r.name].state.PodDeleting?
              then MarkedForDeletion(old(pool.view), pool.view, r.name)
              else pool.view == Reported(old(pool.view), r)
  {
    hide Pool.Valid, Inv, MarkedForDeletion;
    if !r.hasDeletionTimestamp {
      var _ := HandlePodAddUpdateFromNode(pool, r, env);
      return;
    }
    var bound := pool.GetPodSessions(r.name);
    FiledUnderUid(pool.view);
    forall k | 0 <= k < |bound|
      ensures BoundTo(pool.view, bound[k].uid, r.name)
      ensures bound[k].uid in pool.view.sessions && pool.view.sessions[bound[k].uid].session == bound[k]
    {
      assert bound[k] in bound;
      var id :| id in pool.view.pods[r.name].sessions && id in pool.view.sessions
        && pool.view.sessions[id].session == bound[k];
    }
    ghost var v := pool.view;
    assert OnFile(v, bound);
    forall id | id in v.sessions
      ensures id in Uids(bound) <==> BoundTo(v, id, r.name)
    {
      if BoundTo(v, id, r.name) { assert v.sessions[id].session in bound; }
    }
    var _ := DeleteSessions(pool, bound, env);
    ApplyKeepsInv(pool.view, PodGone(r.name));
    pool.DeletePod(r.name);
  }

  // ---------- Session events ----------

  method OnSessionUpdate(pool: Pool, s: Session, now: int)
    requires pool.Valid() && Inv(pool.view)
    modifies pool, pool.repr
    ensures pool.Valid() && Inv(pool.view) && fresh(pool.repr - old(pool.repr))
    ensures pool.view == if s.uid in old(pool.view).sessions || !s.IsTerminal()
                         then UpdateSessionPool(old(pool.view), s, now) else old(pool.view)
  {
    hide Pool.Valid, Inv;
    var present := pool.GetSession(s.uid);
    if present.Some? || !s.IsTerminal() {
      UpdateKeepsInv(pool.view, s, now);
      pool.UpdateSessionPool(s, now);
    }
  }

  lemma UpdateKeepsInv(v: View, s: Session, now: int)
    requires Inv(v)
    ensures Inv(UpdateSessionPool(v, s, now))
  {
    ApplyKeepsInv(v, SessionGone(s));
    ApplyKeepsInv(v, SessionSeen(s.(created := now)));
  }

  function Marked(v: View, uid: string): Session
    requires uid in v.sessions
  {
    v.sessions[uid].session.(deleted := true)
  }

  /** The pool's own copy is marked deleted and filed again. */
  method OnSessionDelete(pool: Pool, uid: string, now: int)
    requires pool.Valid() && Inv(pool.view)
    modifies pool, pool.repr
    ensures pool.Valid() && Inv(pool.view) && fresh(pool.repr - old(pool.repr))
    ensures pool.view == if uid in old(pool.view).sessions
                         then UpdateSessionPool(old(pool.view), Marked(old(pool.view), uid), now)
                         else old(pool.view)
  {
    hide Pool.Valid, Inv;
    var present := pool.GetSession(uid);
    if present.Some? {
      var marked := present.value.session.(deleted := true);
      UpdateKeepsInv(pool.view, marked, now);
      pool.UpdateSessionPool(marked, now);
    }
  }

  method OnSessionAdd(pool: Pool, s: Session, now: int)
    requires pool.Valid() && Inv(pool.view)
    modifies pool, pool.repr
    ensures pool.Valid() && Inv(pool.view) && fresh(pool.repr - old(pool.repr))
    ensures pool.view ==
            if s.uid !in old(pool.view).sessions && (s.deleted || s.IsTerminal()) then old(pool.view)
            else UpdateSessionPool(old(pool.view), if s.deleted then Marked(old(pool.view), s.uid) else s, now)
  {
    hide Pool.Valid, Inv;
    if s.deleted {
      OnSessionDelete(pool, s.uid, now);
      return;
    }
    var present := pool.GetSession(s.uid);
    if present.Some? {
      OnSessionUpdate(pool, s, now);
    } else if !s.IsTerminal() {
      UpdateKeepsInv(pool.view, s, now);
      pool.UpdateSessionPool(s, now);
    }
  }

  // ---------- Sync, first part: pending sessions and idle pods ----------

  predicate InCreationOrder(xs: seq<Session>) {
    forall i, j :: 0 <= i < j < |xs| ==> xs[i].created <= xs[j].created
  }

  function InsertByCreation(s: Session, xs: seq<Session>): seq<Session> {
    if xs == [] || s.created <= xs[0].created then [s] + xs else [xs[0]] + InsertByCreation(s, xs[1..])
  }

  /** `sort.Sort` by creation time. */
  function SortByCreation(xs: seq<Session>): seq<Session> {
    if xs == [] then [] else InsertByCreation(xs[0], SortByCreation(xs[1..]))
  }

  lemma {:induction false} InsertKeeps(s: Session, xs: seq<Session>)
    ensures multiset(InsertByCreation(s, xs)) == multiset{s} + multiset(xs)
    ensures forall x :: x in InsertByCreation(s, xs) <==> x == s || x in xs
  {
    if !(xs == [] || s.created <= xs[0].created) {
      InsertKeeps(s, xs[1..]);
      assert xs == [xs[0]] + xs[1..];
    }
  }

  lemma {:induction false} InsertSorts(s: Session, xs: seq<Session>)
    requires InCreationOrder(xs)
    ensures InCreationOrder(InsertByCreation(s, xs))
  {
    if !(xs == [] || s.created <= xs[0].created) {
      InsertSorts(s, xs[1..]);
      InsertKeeps(s, xs[1..]);
      var rest := InsertByCreation(s, xs[1..]);
      forall i | 0 <= i < |rest|
        ensures xs[0].created <= rest[i].created
      {
        assert rest[i] == s || rest[i] in xs[1..];
      }
    }
  }

  lemma {:induction false} SortSorts(xs: seq<Session>)
    ensures InCreationOrder(SortByCreation(xs)) && multiset(SortByCreation(xs)) == multiset(xs)
  {
    if xs != [] {
      SortSorts(xs[1..]);
      InsertSorts(xs[0], SortByCreation(xs[1..]));
      InsertKeeps(xs[0], SortByCreation(xs[1..]));
      assert xs == [xs[0]] + xs[1..];
    }
  }

  predicate DistinctIds(xs: seq<Session>) {
    forall i, j :: 0 <= i < j < |xs| ==> xs[i].uid != xs[j].uid
  }

  lemma {:induction false} InsertDistinct(s: Session, xs: seq<Session>)
    requires DistinctIds(xs) && forall x :: x in xs ==> x.uid != s.uid
    ensures DistinctIds(InsertByCreation(s, xs))
  {
    if !(xs == [] || s.created <= xs[0].created) {
      InsertDistinct(s, xs[1..]);
      InsertKeeps(s, xs[1..]);
      var rest := InsertByCreation(s, xs[1..]);
      forall i | 0 <= i < |rest|
        ensures rest[i].uid != xs[0].uid
      {
        if rest[i] != s { assert rest[i] in xs[1..]; }
      }
    }
  }

  lemma {:induction false} SortDistinct(xs: seq<Session>)
    requires DistinctIds(xs)
    ensures DistinctIds(SortByCreation(xs)) && forall x :: x in SortByCreation(xs) <==> x in xs
  {
    if xs != [] {
      SortDistinct(xs[1..]);
      InsertDistinct(xs[0], SortByCreation(xs[1..]));
      InsertKeeps(xs[0], SortByCreation(xs[1..]));
    }
  }

  /** A session as it is handed to its pod. */
  function Starting_(s: Session, pod: string): Session {
    s.(status := Starting, podRef := Some(pod))
  }

  /** A pod accepted a session: the session is filed under its pod, and the pod is allocated to it. */
  function Bind(v: View, pod: string, s: Session, now: int): View {
    AddOrUpdatePod(UpdateSessionPool(v, Starting_(s, pod), now), pod, PodAllocated, {s.uid})
  }

  type Binding = (string, Session)

  function BindAll(v: View, bound: seq<Binding>, now: int): View {
    if bound == [] then v
    else
      var last := bound[|bound| - 1];
      Bind(BindAll(v, bound[..|bound| - 1], now), last.0, last.1, now)
  }

  /**
    An idle pod goes to allocated with exactly the new session, which is filed as running on it; nothing else
    changes.
   */
  lemma BindEffect(v: View, pod: string, s: Session, now: int)
    requires Inv(v) && pod in v.pods && v.pods[pod].state.PodIdle? && !s.deleted
    ensures Bind(v, pod, s, now) ==
            View(v.pods[pod := PodView(PodAllocated, {s.uid})],
                 v.sessions[s.uid := SessionEntry(Starting_(s, pod).(created := now), SessionRunning)])
    ensures Inv(Bind(v, pod, s, now))
  {
    assert {} + {s.uid} + {s.uid} == {s.uid};
  }

  /** A session that was bound and then leaves gives its pod back as it was. */
  lemma BindThenLeave(v: View, pod: string, s: Session, now: int)
    requires Inv(v) && pod in v.pods && v.pods[pod].state.PodIdle? && !s.deleted
    ensures DeleteSession(Bind(v, pod, s, now), Starting_(s, pod)).pods == v.pods
    ensures DeleteSession(Bind(v, pod, s, now), Starting_(s, pod)).sessions == v.sessions - {s.uid}
  {
    BindEffect(v, pod, s, now);
    assert Consistent(v.pods[pod]) && {s.uid} - {s.uid} == {};
    assert v.pods[pod := v.pods[pod]] == v.pods;
  }

  /** Different pods and different sessions, all of them available before the pass. */
  ghost predicate CanBind(v: View, bound: seq<Binding>) {
    && (forall i :: 0 <= i < |bound| ==>
          bound[i].0 in v.pods && v.pods[bound[i].0].state.PodIdle? && !bound[i].1.deleted)
    && (forall i, j :: 0 <= i < j < |bound| ==> bound[i].0 != bound[j].0 && bound[i].1.uid != bound[j].1.uid)
  }

  ghost function BoundPods(bound: seq<Binding>): set<string> {
    set i | 0 <= i < |bound| :: bound[i].0
  }

  ghost function BoundIds(bound: seq<Binding>): set<string> {
    set i | 0 <= i < |bound| :: bound[i].1.uid
  }

  /** Each bound pod is allocated to exactly its session; every other pod is untouched. */
  ghost predicate PodsBound(pods: map<string, PodView>, pods': map<string, PodView>, bound: seq<Binding>) {
    && pods'.Keys == pods.Keys
    && (forall i :: 0 <= i < |bound| ==>
          bound[i].0 in pods && pods'[bound[i].0] == PodView(PodAllocated, {bound[i].1.uid}))
    && (forall n :: n in pods && n !in BoundPods(bound) ==> pods'[n] == pods[n])
  }

  /** Each bound session is filed as running on its pod; every other session is untouched. */
  ghost predicate SessionsBound(ss: map<string, SessionEntry>, ss': map<string, SessionEntry>, bound: seq<Binding>,
      now: int) {
    && (forall i :: 0 <= i < |bound| ==>
          && bound[i].1.uid in ss'
          && ss'[bound[i].1.uid] == SessionEntry(Starting_(bound[i].1, bound[i].0).(created := now), SessionRunning))
    && (forall id :: id !in BoundIds(bound) ==> (id in ss' <==> id in ss) && (id in ss ==> ss'[id] == ss[id]))
  }

  lemma BoundSnoc(bound: seq<Binding>, b: Binding)
    ensures BoundPods(bound + [b]) == BoundPods(bound) + {b.0}
    ensures BoundIds(bound + [b]) == BoundIds(bound) + {b.1.uid}
  {
    var all := bound + [b];
    assert all[|bound|] == b;
    assert forall i :: 0 <= i < |bound| ==> all[i] == bound[i];
  }

  lemma OneMorePod(pods: map<string, PodView>, pods': map<string, PodView>, bound: seq<Binding>, b: Binding)
    requires PodsBound(pods, pods', bound) && b.0 in pods && b.0 !in BoundPods(bound)
    ensures PodsBound(pods, pods'[b.0 := PodView(PodAllocated, {b.1.uid})], bound + [b])
  {
    BoundSnoc(bound, b);
  }

  lemma OneMoreSession(ss: map<string, SessionEntry>, ss': map<string, SessionEntry>, bound: seq<Binding>, b: Binding,
      now: int)
    requires SessionsBound(ss, ss', bound, now) && b.1.uid !in BoundIds(bound)
    ensures SessionsBound(ss, ss'[b.1.uid := SessionEntry(Starting_(b.1, b.0).(created := now), SessionRunning)],
                          bound + [b], now)
  {
    BoundSnoc(bound, b);
  }

  lemma NextCanBind(v: View, pods': map<string, PodView>, bound: seq<Binding>, b: Binding)
    requires CanBind(v, bound + [b]) && PodsBound(v.pods, pods', bound)
    ensures CanBind(v, bound) && b.0 !in BoundPods(bound) && b.1.uid !in BoundIds(bound)
    ensures b.0 in pods' && pods'[b.0].state.PodIdle? && !b.1.deleted
  {
    var all := bound + [b];
    assert all[|bound|] == b;
    assert forall i :: 0 <= i < |bound| ==> all[i] == bound[i];
  }

  /** What a whole pass does. */
  lemma {:induction false} BindAllEffect(v: View, bound: seq<Binding>, now: int)
    requires Inv(v) && CanBind(v, bound)
    ensures Inv(BindAll(v, bound, now))
    ensures PodsBound(v.pods, BindAll(v, bound, now).pods, bound)
    ensures SessionsBound(v.sessions, BindAll(v, bound, now).sessions, bound, now)
  {
    if bound != [] {
      var front, last := bound[..|bound| - 1], bound[|bound| - 1];
      assert bound == front + [last];
      BindAllEffect(v, front, now);
      BindOneMore(v, front, last, now);
    }
  }

  lemma BindOneMore(v: View, bound: seq<Binding>, b: Binding, now: int)
    requires CanBind(v, bound + [b]) && Inv(BindAll(v, bound, now))
    requires PodsBound(v.pods, BindAll(v, bound, now).pods, bound)
    requires SessionsBound(v.sessions, BindAll(v, bound, now).sessions, bound, now)
    ensures var v' := BindAll(v, bound + [b], now);
            && Inv(v') && PodsBound(v.pods, v'.pods, bound + [b])
            && SessionsBound(v.sessions, v'.sessions, bound + [b], now)
  {
    hide Inv, PodsBound, SessionsBound, CanBind, BindAll, Bind;
    var w := BindAll(v, bound, now);
    NextCanBind(v, w.pods, bound, b);
    BoundIn(v, bound, b);
    OneMorePod(v.pods, w.pods, bound, b);
    OneMoreSession(v.sessions, w.sessions, bound, b, now);
    BindEffect(w, b.0, b.1, now);
    OneMoreBound(v, bound, b, now);
  }

  lemma BoundIn(v: View, bound: seq<Binding>, b: Binding)
    requires CanBind(v, bound + [b])
    ensures b.0 in v.pods
  {
    assert (bound + [b])[|bound|] == b;
  }

  /** These are the sessions that the pool has on file. */
  ghost predicate OnFile(v: View, xs: seq<Session>) {
    forall k :: 0 <= k < |xs| ==> xs[k].uid in v.sessions && v.sessions[xs[k].uid].session == xs[k]
  }

  /** The filed session with its contents replaced; its place among the states stays. */
  function Rewritten(v: View, s: Session): View
    requires s.uid in v.sessions
  {
    v.(sessions := v.sessions[s.uid := v.sessions[s.uid].(session := s)])
  }

  lemma RewrittenBack(v: View, s: Session, t: Session, now: int)
    requires s.uid == t.uid && s.uid in v.sessions && v.sessions[s.uid].session == s
    ensures Rewritten(Rewritten(v, t), s) == v
    ensures UpdateSessionPool(Rewritten(v, t), t, now) == UpdateSessionPool(v, t, now)
  {
    assert v.sessions[s.uid := v.sessions[s.uid]] == v.sessions;
    assert v.sessions[s.uid := SessionEntry(t, v.sessions[s.uid].state)] - {s.uid} == v.sessions - {s.uid};
  }

  /**
    Writes the new status and the pod into the session on file and offers it to the pod. A refusal undoes the
    write, so that the pool is as it was; otherwise the session is filed again under its new state.
   */
  method BindSessionToPod(pool: Pool, pod: string, s: Session, env: Answers, now: int) returns (ok: bool)
    requires pool.Valid() && OnFile(pool.view, [s])
    modifies pool, pool.repr
    ensures pool.Valid() && fresh(pool.repr - old(pool.repr)) && ok == (pod in env.accepting)
    ensures !ok ==> pool.view == old(pool.view)
    ensures ok ==> pool.view == UpdateSessionPool(old(pool.view), Starting_(s, pod), now)
    ensures ok ==>
              && s.uid in pool.view.sessions && pod in pool.view.pods && s.uid in pool.view.pods[pod].sessions
              && pool.view.sessions[s.uid].session == Session(s.uid, Starting, Some(pod), s.deleted, now, s.openTimeout)
  {
    hide Pool.Valid, PoolView.UpdateSessionPool;
    FiledAsStarting(pool.view, pod, s, now);
    assert [s][0] == s;
    var starting := Starting_(s, pod);
    RewrittenBack(pool.view, s, starting, now);
    RewriteSession(pool, starting);
    ok := OpenSession(pod, starting, env);
    if ok {
      pool.UpdateSessionPool(starting, now);
    } else {
      RewriteSession(pool, s);
    }
  }

  lemma FiledAsStarting(v: View, pod: string, s: Session, now: int)
    ensures var w := UpdateSessionPool(v, Starting_(s, pod), now);
            && s.uid in w.sessions && pod in w.pods && s.uid in w.pods[pod].sessions
            && w.sessions[s.uid].session == Session(s.uid, Starting, Some(pod), s.deleted, now, s.openTimeout)
  {
  }

  method RewriteSession(pool: Pool, s: Session)
    requires pool.Valid() && s.uid in pool.view.sessions
    modifies pool
    ensures pool.Valid() && pool.repr == old(pool.repr) && pool.view == Rewritten(old(pool.view), s)
  {
    hide Pool.Valid;
    var entry := pool.GetSession(s.uid);
    pool.FileSession(s, entry.value.state);
  }

  /** Filing a session again leaves the other sessions alone. */
  lemma OthersOnFile(v: View, pod: string, xs: seq<Session>, now: int)
    requires xs != [] && OnFile(v, xs) && DistinctIds(xs)
    ensures OnFile(Bind(v, pod, xs[0], now), xs[1..])
  {
  }

  /** The pods that are known and take a session, in order. */
  function Willing(idle: seq<string>, env: Answers): seq<string> {
    if idle == [] then []
    else
      var last := idle[|idle| - 1];
      Willing(idle[..|idle| - 1], env) + if last in env.known && last in env.accepting then [last] else []
  }

  /** The pass pairs the sessions, in order, with the willing pods, in order, as far as both go. */
  function Pass(sorted: seq<Session>, idle: seq<string>, env: Answers): seq<Binding> {
    var w := Willing(idle, env);
    seq(if |w| <= |sorted| then |w| else |sorted|, i requires 0 <= i < |w| && i < |sorted| => (w[i], sorted[i]))
  }

  lemma {:induction false} WillingWhere(idle: seq<string>, env: Answers)
    requires NoDuplicates(idle)
    ensures NoDuplicates(Willing(idle, env)) && |Willing(idle, env)| <= |idle|
    ensures forall n :: n in Willing(idle, env) <==> n in idle && n in env.known && n in env.accepting
  {
    if idle != [] {
      var front, last := idle[..|idle| - 1], idle[|idle| - 1];
      assert idle == front + [last];
      WillingWhere(front, env);
      assert last !in front;
    }
  }

  lemma {:induction false} WillingGrows(idle: seq<string>, env: Answers, i: nat)
    requires i <= |idle|
    ensures Willing(idle[..i], env) <= Willing(idle, env)
  {
    if i < |idle| {
      assert idle[..|idle| - 1][..i] == idle[..i];
      WillingGrows(idle[..|idle| - 1], env, i);
    } else {
      assert idle[..i] == idle;
    }
  }

  /** With no session left, the rest of the pods makes no difference. */
  lemma PassIsOver(sorted: seq<Session>, idle: seq<string>, env: Answers, i: nat)
    requires i <= |idle| && |Pass(sorted, idle[..i], env)| == |sorted|
    ensures Pass(sorted, idle, env) == Pass(sorted, idle[..i], env)
  {
    WillingGrows(idle, env, i);
  }

  lemma PassStep(sorted: seq<Session>, idle: seq<string>, env: Answers, i: nat)
    requires i < |idle| && |Pass(sorted, idle[..i], env)| < |sorted|
    ensures Pass(sorted, idle[..i + 1], env) ==
            if idle[i] in env.known && idle[i] in env.accepting
            then Pass(sorted, idle[..i], env) + [(idle[i], sorted[|Pass(sorted, idle[..i], env)|])]
            else Pass(sorted, idle[..i], env)
  {
    assert idle[..i + 1][..i] == idle[..i];
  }

  lemma PassFromLists(sorted: seq<Session>, idle: seq<string>, env: Answers)
    requires NoDuplicates(idle)
    ensures FromLists(Pass(sorted, idle, env), sorted, idle, |idle|)
  {
    WillingWhere(idle, env);
    var w := Willing(idle, env);
    assert idle[..|idle|] == idle;
    assert forall i :: 0 <= i < |w| ==> w[i] in idle;
  }

  /** The names of the pods and the sessions of a pass. */
  ghost predicate FromLists(bound: seq<Binding>, sorted: seq<Session>, idle: seq<string>, n: nat) {
    && |bound| <= |sorted| && n <= |idle|
    && (forall i :: 0 <= i < |bound| ==> bound[i].1 == sorted[i] && bound[i].0 in idle[..n])
    && (forall i, j :: 0 <= i < j < |bound| ==> bound[i].0 != bound[j].0)
  }

  /** One pass over the idle pods; pods that are unknown to the pod manager or refuse are passed over. */
  method AssignPendingSessions(pool: Pool, sorted: seq<Session>, idle: seq<string>, env: Answers, now: int)
      returns (bound: seq<Binding>, ok: bool)
    requires pool.Valid() && OnFile(pool.view, sorted) && DistinctIds(sorted)
    modifies pool, pool.repr
    ensures pool.Valid() && fresh(pool.repr - old(pool.repr))
    ensures bound == Pass(sorted, idle, env)
    ensures pool.view == BindAll(old(pool.view), bound, now)
    ensures !ok ==> exists n :: n in idle && n in env.known && n !in env.accepting
  {
    hide Pool.Valid, Bind, BindAll, Pass, Willing, OnFile, DistinctIds;
    bound, ok := [], true;
    NoneBound(pool.view, now);
    assert sorted[0..] == sorted;
    assert Pass(sorted, idle[..0], env) == [] by { NobodyYet(sorted, idle[..0], env); }
    var si := 0;
    for i := 0 to |idle|
      invariant pool.Valid() && fresh(pool.repr - old(pool.repr))
      invariant si == |bound| <= |sorted| && bound == Pass(sorted, idle[..i], env)
      invariant OnFile(pool.view, sorted[si..])
      invariant pool.view == BindAll(old(pool.view), bound, now)
      invariant !ok ==> exists n :: n in idle && n in env.known && n !in env.accepting
    {
      if si == |sorted| {
        PassIsOver(sorted, idle, env, i);
        return;
      }
      PassStep(sorted, idle, env, i);
      var info := FindPod(env, idle[i]);
      if info.Some? {
        var s := sorted[si];
        ghost var before := pool.view;
        RestOnFile(before, idle[i], sorted, si, now);
        var accepted := BindSessionToPod(pool, idle[i], s, env, now);
        if !accepted {
          assert idle[i] in idle;
          ok := false;
          continue;
        }
        pool.AddOrUpdatePod(idle[i], PodAllocated, {s.uid});
        OneMoreBound(old(pool.view), bound, (idle[i], s), now);
        bound := bound + [(idle[i], s)];
        si := si + 1;
      }
    }
    assert idle[..|idle|] == idle;
  }

  lemma RestOnFile(v: View, pod: string, sorted: seq<Session>, si: nat, now: int)
    requires si < |sorted| && OnFile(v, sorted[si..]) && DistinctIds(sorted)
    ensures OnFile(v, [sorted[si]]) && OnFile(Bind(v, pod, sorted[si], now), sorted[si + 1..])
    ensures Bind(v, pod, sorted[si], now) ==
            AddOrUpdatePod(UpdateSessionPool(v, Starting_(sorted[si], pod), now), pod, PodAllocated, {sorted[si].uid})
  {
    OthersOnFile(v, pod, sorted[si..], now);
    assert sorted[si..][1..] == sorted[si + 1..] && sorted[si..][0] == sorted[si];
  }

  lemma NobodyYet(sorted: seq<Session>, idle: seq<string>, env: Answers)
    requires idle == []
    ensures Pass(sorted, idle, env) == []
  {
  }

  lemma NoneBound(v: View, now: int)
    ensures BindAll(v, [], now) == v
  {
  }

  lemma OneMoreBound(v: View, bound: seq<Binding>, b: Binding, now: int)
    ensures BindAll(v, bound + [b], now) == Bind(BindAll(v, bound, now), b.0, b.1, now) ==
            AddOrUpdatePod(UpdateSessionPool(BindAll(v, bound, now), Starting_(b.1, b.0), now), b.0, PodAllocated,
                           {b.1.uid})
  {
    assert (bound + [b])[..|bound|] == bound;
  }

  /** The pass respects age: no session left waiting is older than one that got a pod. */
  ghost predicate OldestFirst(v: View, bound: seq<Binding>, now: int) {
    && (forall i, j :: 0 <= i < j < |bound| ==> bound[i].1.created <= bound[j].1.created)
    && (forall id, i :: id in v.sessions && v.sessions[id].state.SessionPending?
                        && !TimedOut(v.sessions[id].session, now)
                        && id !in BoundIds(bound) && 0 <= i < |bound| ==>
          bound[i].1.created <= v.sessions[id].session.created)
  }

  lemma PassCanBind(v: View, pending: seq<Session>, bound: seq<Binding>, idle: seq<string>, now: int)
    requires Inv(v) && Lists(v, pending, {SessionPending}, {false}, now)
    requires FromLists(bound, SortByCreation(pending), idle, |idle|)
    requires forall n :: n in idle ==> n in v.pods && v.pods[n].state.PodIdle?
    ensures CanBind(v, bound)
  {
    hide Inv, TimedOut, SortByCreation;
    var sorted := SortByCreation(pending);
    SortDistinct(pending);
    forall i | 0 <= i < |bound|
      ensures !bound[i].1.deleted
    {
      assert sorted[i] in pending;
      WaitingIsLive(v, sorted[i].uid);
    }
  }

  lemma PassRespectsAge(v: View, pending: seq<Session>, bound: seq<Binding>, idle: seq<string>, now: int)
    requires Inv(v) && Lists(v, pending, {SessionPending}, {false}, now)
    requires FromLists(bound, SortByCreation(pending), idle, |idle|)
    ensures OldestFirst(v, bound, now)
  {
    hide Inv, TimedOut, SortByCreation;
    var sorted := SortByCreation(pending);
    SortSorts(pending);
    SortDistinct(pending);
    assert forall k :: 0 <= k < |bound| ==> bound[k].1.uid in BoundIds(bound);
    forall id, i | id in v.sessions && v.sessions[id].state.SessionPending? && !TimedOut(v.sessions[id].session, now)
                   && id !in BoundIds(bound) && 0 <= i < |bound|
      ensures bound[i].1.created <= v.sessions[id].session.created
    {
      var s := v.sessions[id].session;
      assert s in sorted;
      WaitingIsLive(v, id);
      var k :| 0 <= k < |sorted| && sorted[k] == s;
      assert k >= |bound|;
    }
  }

  lemma WaitingIsLive(v: View, id: string)
    requires Inv(v) && id in v.sessions
    ensures v.sessions[id].session.uid == id && !v.sessions[id].state.SessionStarting?
    ensures v.sessions[id].state.SessionPending? ==> !v.sessions[id].session.deleted
  {
  }

  ghost predicate Late(v: View, id: string, now: int) {
    && id in v.sessions && v.sessions[id].state.SessionPending?
    && TimedOut(v.sessions[id].session, now) && !v.sessions[id].session.IsOpen()
  }

  ghost predicate Waiting(v: View, id: string, now: int) {
    id in v.sessions && v.sessions[id].state.SessionPending? && !TimedOut(v.sessions[id].session, now)
  }

  /** If every idle pod is willing, a session is left waiting only when no idle pod is left. */
  ghost predicate NothingWasted(v: View, bound: seq<Binding>, env: Answers, now: int) {
    (forall n :: n in v.pods && v.pods[n].state.PodIdle? ==> n in env.known && n in env.accepting) ==>
      || (forall id :: Waiting(v, id, now) ==> id in BoundIds(bound))
      || (forall n :: n in v.pods && v.pods[n].state.PodIdle? ==> n in BoundPods(bound))
  }

  /** What the pass binds waited for a pod. */
  ghost predicate AllWaited(v: View, bound: seq<Binding>, now: int) {
    forall i :: 0 <= i < |bound| ==>
      Waiting(v, bound[i].1.uid, now) && v.sessions[bound[i].1.uid].session == bound[i].1
  }

  lemma PassOfWaiting(v: View, pending: seq<Session>, bound: seq<Binding>, idle: seq<string>, now: int)
    requires Inv(v) && Lists(v, pending, {SessionPending}, {false}, now)
    requires FromLists(bound, SortByCreation(pending), idle, |idle|)
    ensures AllWaited(v, bound, now)
  {
    hide Inv, TimedOut, SortByCreation;
    var sorted := SortByCreation(pending);
    SortDistinct(pending);
    forall i | 0 <= i < |bound|
      ensures Waiting(v, bound[i].1.uid, now) && v.sessions[bound[i].1.uid].session == bound[i].1
    {
      assert sorted[i] in pending;
    }
  }

  ghost function WaitingIds(v: View, now: int): set<string> {
    set id | id in v.sessions && Waiting(v, id, now)
  }

  lemma {:induction false} BoundCounts(bound: seq<Binding>)
    requires forall i, j :: 0 <= i < j < |bound| ==> bound[i].0 != bound[j].0 && bound[i].1.uid != bound[j].1.uid
    ensures |BoundPods(bound)| == |bound| == |BoundIds(bound)|
  {
    if bound != [] {
      var front, b := bound[..|bound| - 1], bound[|bound| - 1];
      assert bound == front + [b];
      BoundCounts(front);
      BoundSnoc(front, b);
    }
  }

  /** With as many idle pods as waiting sessions, all of them willing, no session is left waiting. */
  lemma EnoughPodsServeAll(v: View, bound: seq<Binding>, env: Answers, now: int)
    requires CanBind(v, bound) && AllWaited(v, bound, now) && NothingWasted(v, bound, env, now)
    requires forall n :: n in v.pods && v.pods[n].state.PodIdle? ==> n in env.known && n in env.accepting
    requires |WaitingIds(v, now)| <= |InState(v, PodIdle)|
    ensures BoundIds(bound) == WaitingIds(v, now)
  {
    hide TimedOut;
    assert BoundIds(bound) <= WaitingIds(v, now);
    if !(forall id :: Waiting(v, id, now) ==> id in BoundIds(bound)) {
      assert InState(v, PodIdle) <= BoundPods(bound);
      BoundCounts(bound);
      SubsetCount(InState(v, PodIdle), BoundPods(bound));
      SameSize(BoundIds(bound), WaitingIds(v, now));
    }
  }

  lemma {:induction false} SubsetCount(a: set<string>, b: set<string>)
    requires a <= b
    ensures |a| <= |b|
    decreases |a|
  {
    if x :| x in a {
      SubsetCount(a - {x}, b - {x});
    }
  }

  lemma SameSize(a: set<string>, b: set<string>)
    requires a <= b && |b| <= |a|
    ensures a == b
  {
    if !(b <= a) {
      var x :| x in b && x !in a;
      SubsetCount(a, b - {x});
    }
  }

  lemma PassWastesNothing(v: View, pending: seq<Session>, idle: seq<string>, env: Answers, now: int)
    requires Inv(v) && Lists(v, pending, {SessionPending}, {false}, now)
    requires NoDuplicates(idle) && forall n :: n in idle ==> n in v.pods && v.pods[n].state.PodIdle?
    requires |idle| < |pending| ==> forall n :: n in v.pods && v.pods[n].state.PodIdle? ==> n in idle
    ensures NothingWasted(v, Pass(SortByCreation(pending), idle, env), env, now)
  {
    hide TimedOut, SortByCreation, Inv;
    var sorted := SortByCreation(pending);
    var bound, w := Pass(sorted, idle, env), Willing(idle, env);
    SortSorts(pending);
    SortDistinct(pending);
    WillingWhere(idle, env);
    assert |sorted| == |multiset(sorted)| == |multiset(pending)| == |pending|;
    if forall n :: n in v.pods && v.pods[n].state.PodIdle? ==> n in env.known && n in env.accepting {
      AllWilling(idle, env);
      if |idle| < |pending| {
        forall n | n in v.pods && v.pods[n].state.PodIdle?
          ensures n in BoundPods(bound)
        {
          var k :| 0 <= k < |w| && w[k] == n;
          assert bound[k].0 == n;
        }
      } else {
        forall id | Waiting(v, id, now)
          ensures id in BoundIds(bound)
        {
          var s := v.sessions[id].session;
          WaitingIsLive(v, id);
          assert s in sorted;
          var k :| 0 <= k < |sorted| && sorted[k] == s;
          assert bound[k].1 == s;
        }
      }
    }
  }

  lemma {:induction false} AllWilling(idle: seq<string>, env: Answers)
    requires forall n :: n in idle ==> n in env.known && n in env.accepting
    ensures Willing(idle, env) == idle
  {
    if idle != [] {
      assert idle == idle[..|idle| - 1] + [idle[|idle| - 1]];
      AllWilling(idle[..|idle| - 1], env);
    }
  }

  /** Assigns pending sessions to idle pods, then cleans up sessions that timed out or are to be deleted. */
  method DeployApplicationSessions(pool: Pool, env: Answers, now: int) returns (bound: seq<Binding>, ok: bool)
    requires pool.Valid() && Inv(pool.view)
    modifies pool, pool.repr
    ensures pool.Valid() && Inv(pool.view) && fresh(pool.repr - old(pool.repr))
    ensures CanBind(old(pool.view), bound) && OldestFirst(old(pool.view), bound, now)
    ensures NothingWasted(old(pool.view), bound, env, now) && AllWaited(old(pool.view), bound, now)
    ensures UnboundOnly(BindAll(old(pool.view), bound, now), pool.view)
    ensures AllServed(pool.view, bound, now) && ExpiredDealt(old(pool.view), pool.view, env, now)
    ensures ok ==> forall id :: Late(old(pool.view), id, now) ==> id !in pool.view.sessions
  {
    hide Pool.Valid, Inv, UnboundOnly, Lists, TimedOut, CanBind, OldestFirst, NothingWasted;
    hide BindAll, FromLists, SortByCreation, Pass, AllWaited, AllServed, SparesOthers, Uids, PodsBound, SessionsBound;
    hide AllDealt, ExpiredDealt, OnFile;
    FiledUnderUid(pool.view);
    var pending, late := pool.SplitByTimeout(SessionPending, now);
    var starting, lateStarting := pool.SplitByTimeout(SessionStarting, now);
    var deletingInTime, deletingLate := pool.SplitByTimeout(SessionDeleting, now);
    assert pending + starting == pending && late + lateStarting == late;
    var idle := pool.GetSomeIdlePods(|pending + starting|);
    var sorted := SortByCreation(pending + starting);
    SortedOnFile(pool.view, pending, now);
    var ok0: bool;
    bound, ok0 := AssignPendingSessions(pool, sorted, idle, env, now);
    PassFromLists(sorted, idle, env);
    PassCanBind(old(pool.view), pending, bound, idle, now);
    PassRespectsAge(old(pool.view), pending, bound, idle, now);
    PassOfWaiting(old(pool.view), pending, bound, idle, now);
    PassWastesNothing(old(pool.view), pending, idle, env, now);
    BindAllEffect(old(pool.view), bound, now);
    ghost var mid := pool.view;
    ghost var deleting := deletingInTime + deletingLate;
    ListedOnFile(old(pool.view), mid, bound, late, deletingInTime, deletingLate, now);
    var ok1 := DeleteSessions(pool, late + lateStarting, env);
    ghost var mid' := pool.view;
    SparedOnFile(mid, mid', Uids(late), deleting);
    var ok2 := DeleteSessions(pool, deletingInTime + deletingLate, env);
    UnboundTransitive(mid, mid', pool.view);
    assert late + [] == late;
    SparedTwice(mid, mid', pool.view, Uids(late), Uids(deletingInTime + deletingLate));
    BoundAreSpared(old(pool.view), bound, late, deletingInTime, deletingLate, now);
    StillServed(old(pool.view), mid, pool.view, bound, Uids(late) + Uids(deletingInTime + deletingLate), now);
    LateAreListed(old(pool.view), late, now);
    FiledUnderUid(mid);
    AllDealtStays(mid, mid', pool.view, Uids(late), Uids(deleting), env);
    DealtInTwo(mid, mid', pool.view, late, deleting, env);
    ExpiredAreDealt(old(pool.view), mid, pool.view, late, deletingInTime, deletingLate, env, now);
    ok := ok0 && ok1 && ok2;
  }

  predicate Expired(e: SessionEntry, now: int) {
    e.state.SessionDeleting? || (e.state.SessionPending? && TimedOut(e.session, now))
  }

  /** Sessions that timed out waiting, and sessions that are to be deleted, were dealt with. */
  ghost predicate ExpiredDealt(v: View, v': View, env: Answers, now: int) {
    forall id :: id in v.sessions && Expired(v.sessions[id], now) ==> Dealt(v', v.sessions[id], env)
  }

  /** The lists of the clean-up are on file after the pass as before, and no session is on two of them. */
  lemma ListedOnFile(v: View, mid: View, bound: seq<Binding>, late: seq<Session>, a: seq<Session>, b: seq<Session>,
      now: int)
    requires AllWaited(v, bound, now) && SessionsBound(v.sessions, mid.sessions, bound, now)
    requires Lists(v, late, {SessionPending}, {true}, now)
    requires Lists(v, a, {SessionDeleting}, {false}, now) && Lists(v, b, {SessionDeleting}, {true}, now)
    ensures OnFile(mid, late) && OnFile(mid, a + b) && Uids(late) !! Uids(a + b)
    ensures forall id :: id in Uids(late) + Uids(a + b) && id in v.sessions ==>
              id in mid.sessions && mid.sessions[id] == v.sessions[id]
  {
    hide TimedOut;
    BoundAreSpared(v, bound, late, a, b, now);
    forall k | 0 <= k < |a + b|
      ensures (a + b)[k].uid in v.sessions && v.sessions[(a + b)[k].uid].session == (a + b)[k]
      ensures v.sessions[(a + b)[k].uid].state.SessionDeleting? && (a + b)[k].uid in Uids(a + b)
    {
      assert (a + b)[k] in a + b;
      assert if k < |a| then (a + b)[k] == a[k] else (a + b)[k] == b[k - |a|];
    }
    forall k | 0 <= k < |late|
      ensures late[k].uid in Uids(late)
    {
      assert late[k] in late;
    }
    forall s | s in late
      ensures v.sessions[s.uid].state.SessionPending?
    {
      var i :| 0 <= i < |late| && late[i] == s;
    }
    forall s | s in a + b
      ensures v.sessions[s.uid].state.SessionDeleting?
    {
      var j :| 0 <= j < |a + b| && (a + b)[j] == s;
    }
  }

  lemma SparedOnFile(v: View, v': View, ids: set<string>, list: seq<Session>)
    requires SparesOthers(v, v', ids) && OnFile(v, list) && ids !! Uids(list)
    ensures OnFile(v', list)
    ensures forall id :: id in Uids(list) && id in v.sessions ==> id in v'.sessions && v'.sessions[id] == v.sessions[id]
  {
    forall k | 0 <= k < |list|
      ensures list[k].uid in Uids(list)
    {
      assert list[k] in list;
    }
  }

  /** Dealing with one list after the other deals with both. */
  lemma DealtInTwo(v: View, w: View, x: View, first: seq<Session>, second: seq<Session>, env: Answers)
    requires AllDealt(v, x, Uids(first), env) && AllDealt(w, x, Uids(second), env)
    requires forall id :: id in Uids(second) && id in v.sessions ==>
               id in w.sessions && w.sessions[id] == v.sessions[id]
    ensures AllDealt(v, x, Uids(first) + Uids(second), env)
  {
  }

  lemma ExpiredAreDealt(v: View, mid: View, v': View, late: seq<Session>, a: seq<Session>, b: seq<Session>,
      env: Answers, now: int)
    requires Lists(v, late, {SessionPending}, {true}, now)
    requires Lists(v, a, {SessionDeleting}, {false}, now) && Lists(v, b, {SessionDeleting}, {true}, now)
    requires forall id :: id in v.sessions ==> v.sessions[id].session.uid == id
    requires forall id :: id in Uids(late) + Uids(a + b) && id in v.sessions ==>
               id in mid.sessions && mid.sessions[id] == v.sessions[id]
    requires AllDealt(mid, v', Uids(late) + Uids(a + b), env)
    ensures ExpiredDealt(v, v', env, now)
  {
    hide TimedOut, Dealt;
    forall id | id in v.sessions && Expired(v.sessions[id], now)
      ensures Dealt(v', v.sessions[id], env)
    {
      var s := v.sessions[id].session;
      if v.sessions[id].state.SessionDeleting? {
        assert if TimedOut(s, now) then s in b else s in a;
        assert s in a + b;
      } else {
        assert s in late;
      }
      assert id in Uids(late) + Uids(a + b);
    }
  }

  /** Each pod of the pass is allocated to its session, which is starting on it. */
  ghost predicate AllServed(v: View, bound: seq<Binding>, now: int) {
    forall i :: 0 <= i < |bound| ==> Served(v, bound[i].0, bound[i].1, now)
  }

  predicate Served(v: View, pod: string, s: Session, now: int) {
    && pod in v.pods && v.pods[pod] == PodView(PodAllocated, {s.uid})
    && s.uid in v.sessions && v.sessions[s.uid].state.SessionRunning?
    && v.sessions[s.uid].session == Session(s.uid, Starting, Some(pod), s.deleted, now, s.openTimeout)
  }

  lemma BoundAreSpared(v: View, bound: seq<Binding>, late: seq<Session>, a: seq<Session>, b: seq<Session>, now: int)
    requires AllWaited(v, bound, now) && Lists(v, late, {SessionPending}, {true}, now)
    requires Lists(v, a, {SessionDeleting}, {false}, now) && Lists(v, b, {SessionDeleting}, {true}, now)
    ensures BoundIds(bound) !! Uids(late) + Uids(a + b)
  {
    hide TimedOut;
    forall s | s in late
      ensures s.uid !in BoundIds(bound)
    {
      var k :| 0 <= k < |late| && late[k] == s;
    }
    forall s | s in a + b
      ensures s.uid !in BoundIds(bound)
    {
      var k :| 0 <= k < |a + b| && (a + b)[k] == s;
      assert k < |a| ==> a[k] == s;
      assert k >= |a| ==> b[k - |a|] == s;
    }
  }

  lemma StillServed(v: View, mid: View, v': View, bound: seq<Binding>, gone: set<string>, now: int)
    requires PodsBound(v.pods, mid.pods, bound) && SessionsBound(v.sessions, mid.sessions, bound, now)
    requires UnboundOnly(mid, v') && SparesOthers(mid, v', gone) && BoundIds(bound) !! gone
    ensures AllServed(v', bound, now)
  {
    forall i | 0 <= i < |bound|
      ensures Served(v', bound[i].0, bound[i].1, now)
    {
      assert bound[i].1.uid in BoundIds(bound);
      assert mid.pods[bound[i].0] == PodView(PodAllocated, {bound[i].1.uid});
    }
  }

  lemma SortedOnFile(v: View, pending: seq<Session>, now: int)
    requires Inv(v) && Lists(v, pending, {SessionPending}, {false}, now)
    ensures OnFile(v, SortByCreation(pending)) && DistinctIds(SortByCreation(pending))
  {
    hide TimedOut, SortByCreation, Inv;
    SortDistinct(pending);
    var sorted := SortByCreation(pending);
    forall k | 0 <= k < |sorted|
      ensures sorted[k].uid in v.sessions && v.sessions[sorted[k].uid].session == sorted[k]
    {
      assert sorted[k] in pending;
      WaitingIsLive(v, sorted[k].uid);
    }
  }

  lemma LateAreListed(v: View, late: seq<Session>, now: int)
    requires Inv(v) && Lists(v, late, {SessionPending}, {true}, now)
    ensures forall id :: id in v.sessions && v.sessions[id].state.SessionPending?
                         && TimedOut(v.sessions[id].session, now) ==>
              exists k :: 0 <= k < |late| && late[k].uid == id && late[k] == v.sessions[id].session
  {
    hide TimedOut, Inv;
    forall id | id in v.sessions && v.sessions[id].state.SessionPending? && TimedOut(v.sessions[id].session, now)
      ensures exists k :: 0 <= k < |late| && late[k].uid == id && late[k] == v.sessions[id].session
    {
      WaitingIsLive(v, id);
      assert v.sessions[id].session in late;
    }
  }

  // ---------- Sync, second part: scaling the pods ----------

  ghost function Unoccupied(v: View): set<string> {
    set n | n in v.pods && (v.pods[n].state.PodPending? || v.pods[n].state.PodIdle?)
  }

  /** Exactly the pods `gone`, unoccupied before, were marked for deletion or forgotten. */
  ghost predicate ScaledDown(v: View, v': View, gone: set<string>) {
    && v'.sessions == v.sessions && gone <= Unoccupied(v) && v'.pods.Keys <= v.pods.Keys
    && (forall n :: n in v.pods && n !in gone ==> n in v'.pods && v'.pods[n] == v.pods[n])
    && (forall n :: n in v'.pods && n in gone ==> v'.pods[n] == PodView(PodDeleting, v.pods[n].sessions))
  }

  /** Exactly the new pods `created` were added, pending. */
  ghost predicate ScaledUp(v: View, v': View, created: set<string>) {
    && v'.sessions == v.sessions && created !! v.pods.Keys && v'.pods.Keys == v.pods.Keys + created
    && (forall n :: n in v.pods ==> v'.pods[n] == v.pods[n])
    && (forall n :: n in created ==> v'.pods[n] == PodView(PodPending, {}))
  }

  lemma ScaledDownCount(v: View, v': View, gone: set<string>)
    requires ScaledDown(v, v', gone)
    ensures |Unoccupied(v')| == |Unoccupied(v)| - |gone|
  {
    assert Unoccupied(v') == Unoccupied(v) - gone;
    assert |Unoccupied(v) - gone| + |gone| == |Unoccupied(v)| by {
      assert (Unoccupied(v) - gone) + gone == Unoccupied(v);
    }
  }

  lemma ScaledUpCount(v: View, v': View, created: set<string>)
    requires ScaledUp(v, v', created)
    ensures |Unoccupied(v')| == |Unoccupied(v)| + |created|
  {
    assert Unoccupied(v') == Unoccupied(v) + created;
  }

  /** Scaling down never touches a pod with sessions: whatever it removes or marks has none bound. */
  lemma ScaleDownSparesBound(v: View, v': View, gone: set<string>)
    requires Inv(v) && ScaledDown(v, v', gone)
    ensures Inv(v')
    ensures forall n :: n in v.pods && v.pods[n].state.PodAllocated? ==> n in v'.pods && v'.pods[n] == v.pods[n]
    ensures forall n :: n in gone ==> v.pods[n].sessions == {}
  {
    assert forall n :: n in v.pods ==> Consistent(v.pods[n]);
  }

  datatype Wanted = NoHost | AnyHost | Unknown | Running {
    /** Whether a candidate pod is taken in this round, given what the pod manager knows of it. */
    predicate Takes(info: Option<PodInfo>) {
      info.None? ||
      match this
      case NoHost => !info.value.hasHostIP
      case AnyHost => true
      case Unknown => info.value.phase.PhaseUnknown?
      case Running => info.value.phase.PhaseRunning?
    }
  }

  /** The first `n` of them; the count is compared only after a pod was added, so that zero stands for all. */
  function Take(xs: seq<string>, n: nat): (r: seq<string>)
    ensures r <= xs && (n > 0 ==> |r| <= n)
  {
    if n == 0 || |xs| <= n then xs else xs[..n]
  }

  /** The candidates of a round that it takes, in order. */
  function Wants(candidates: seq<string>, wanted: Wanted, env: Answers): (r: seq<string>)
    ensures forall n :: n in r <==> n in candidates && wanted.Takes(FindPod(env, n))
  {
    if candidates == [] then []
    else
      var last := candidates[|candidates| - 1];
      assert candidates == candidates[..|candidates| - 1] + [last];
      Wants(candidates[..|candidates| - 1], wanted, env) + if wanted.Takes(FindPod(env, last)) then [last] else []
  }

  /** Appends the candidates that are wanted, until `n` pods have been picked. */
  method PickCandidates(candidates: seq<string>, picked: seq<string>, n: nat, wanted: Wanted, env: Answers)
      returns (names: seq<string>)
    requires n > 0 ==> |picked| <= n
    ensures names == Take(picked + Wants(candidates, wanted, env), n)
  {
    hide Wants, Take;
    names := picked;
    assert names == Take(picked + Wants(candidates[..0], wanted, env), n) by {
      PickNone(picked, candidates, wanted, env, n);
    }
    for i := 0 to |candidates|
      invariant (n > 0 ==> |names| <= n) && names == Take(picked + Wants(candidates[..i], wanted, env), n)
    {
      if n > 0 && |names| == n {
        PickedAll(picked, candidates, wanted, env, n, i);
        return;
      }
      PickStep(picked, candidates, wanted, env, n, i);
      var info := FindPod(env, candidates[i]);
      if wanted.Takes(info) {
        names := names + [candidates[i]];
      }
    }
    assert candidates[..|candidates|] == candidates;
  }

  lemma PickNone(picked: seq<string>, candidates: seq<string>, wanted: Wanted, env: Answers, n: nat)
    requires n > 0 ==> |picked| <= n
    ensures Take(picked + Wants(candidates[..0], wanted, env), n) == picked
  {
    assert picked + [] == picked;
  }

  lemma PickStep(picked: seq<string>, candidates: seq<string>, wanted: Wanted, env: Answers, n: nat, i: nat)
    requires i < |candidates| && (n == 0 || |Take(picked + Wants(candidates[..i], wanted, env), n)| < n)
    ensures Take(picked + Wants(candidates[..i + 1], wanted, env), n) ==
            Take(picked + Wants(candidates[..i], wanted, env), n) +
            if wanted.Takes(FindPod(env, candidates[i])) then [candidates[i]] else []
  {
    hide Wants, Take;
    var w := Wants(candidates[..i], wanted, env);
    var x := if wanted.Takes(FindPod(env, candidates[i])) then [candidates[i]] else [];
    WantsStep(candidates, wanted, env, i);
    assert picked + (w + x) == (picked + w) + x;
    TakeSnoc(picked + w, x, n);
  }

  lemma WantsStep(candidates: seq<string>, wanted: Wanted, env: Answers, i: nat)
    requires i < |candidates|
    ensures Wants(candidates[..i + 1], wanted, env) ==
            Wants(candidates[..i], wanted, env) +
            if wanted.Takes(FindPod(env, candidates[i])) then [candidates[i]] else []
  {
    assert candidates[..i + 1][..i] == candidates[..i];
  }

  lemma TakeSnoc(a: seq<string>, x: seq<string>, n: nat)
    requires (n == 0 || |Take(a, n)| < n) && |x| <= 1
    ensures Take(a + x, n) == Take(a, n) + x
  {
  }

  lemma {:induction false} WantsGrows(candidates: seq<string>, wanted: Wanted, env: Answers, i: nat)
    requires i <= |candidates|
    ensures Wants(candidates[..i], wanted, env) <= Wants(candidates, wanted, env)
  {
    if i < |candidates| {
      assert candidates[..|candidates| - 1][..i] == candidates[..i];
      WantsGrows(candidates[..|candidates| - 1], wanted, env, i);
    } else {
      assert candidates[..i] == candidates;
    }
  }

  lemma PickedAll(picked: seq<string>, candidates: seq<string>, wanted: Wanted, env: Answers, n: nat, i: nat)
    requires i <= |candidates| && 0 < n == |Take(picked + Wants(candidates[..i], wanted, env), n)|
    ensures Take(picked + Wants(candidates, wanted, env), n) == Take(picked + Wants(candidates[..i], wanted, env), n)
  {
    WantsGrows(candidates, wanted, env, i);
  }

  /** The order in which unoccupied pods are given up; a pending pod can come up more than once. */
  function GiveUpOrder(pending: seq<string>, idle: seq<string>, env: Answers): (r: seq<string>)
    ensures forall n :: n in r <==>
              n in pending || (n in idle && (Unknown.Takes(FindPod(env, n)) || Running.Takes(FindPod(env, n))))
  {
    Wants(pending, NoHost, env) + Wants(pending, NoHost, env) + Wants(pending, AnyHost, env)
    + Wants(idle, Unknown, env) + Wants(idle, Running, env)
  }

  /**
    A pod is given up only after all pods that cost less: an idle one after all pending ones, a pending one that has a
    host after those without, a running idle one after those of unknown state.
   */
  lemma CheapestFirst(pending: seq<string>, idle: seq<string>, env: Answers, n: nat, p: string, q: string)
    requires p in Take(GiveUpOrder(pending, idle, env), n) && (forall m :: m in pending ==> m !in idle)
    ensures p in idle && q in pending ==> q in Take(GiveUpOrder(pending, idle, env), n)
    ensures p in pending && !NoHost.Takes(FindPod(env, p)) && q in pending && NoHost.Takes(FindPod(env, q)) ==>
              q in Take(GiveUpOrder(pending, idle, env), n)
    ensures p in idle && !Unknown.Takes(FindPod(env, p)) && q in idle && Unknown.Takes(FindPod(env, q)) ==>
              q in Take(GiveUpOrder(pending, idle, env), n)
  {
    hide Wants, Take, GiveUpOrder;
    if p in idle && q in pending {
      PendingThenIdle(pending, idle, env, n, p, q);
    }
    if p in pending && !NoHost.Takes(FindPod(env, p)) && q in pending && NoHost.Takes(FindPod(env, q)) {
      HostlessThenOthers(pending, idle, env, n, p, q);
    }
    if p in idle && !Unknown.Takes(FindPod(env, p)) && q in idle && Unknown.Takes(FindPod(env, q)) {
      UnknownThenRunning(pending, idle, env, n, p, q);
    }
  }

  lemma PendingThenIdle(pending: seq<string>, idle: seq<string>, env: Answers, n: nat, p: string, q: string)
    requires p in Take(GiveUpOrder(pending, idle, env), n) && p !in pending && q in pending
    ensures q in Take(GiveUpOrder(pending, idle, env), n)
  {
    hide Wants, Take;
    var a, b, c := Wants(pending, NoHost, env), Wants(pending, AnyHost, env), Wants(idle, Unknown, env);
    var d := Wants(idle, Running, env);
    assert GiveUpOrder(pending, idle, env) == (a + a + b) + (c + d);
    TakenBefore(a + a + b, c + d, n, p, q);
  }

  lemma HostlessThenOthers(pending: seq<string>, idle: seq<string>, env: Answers, n: nat, p: string, q: string)
    requires p in Take(GiveUpOrder(pending, idle, env), n) && !NoHost.Takes(FindPod(env, p))
    requires q in pending && NoHost.Takes(FindPod(env, q))
    ensures q in Take(GiveUpOrder(pending, idle, env), n)
  {
    hide Wants, Take;
    var a, b, c := Wants(pending, NoHost, env), Wants(pending, AnyHost, env), Wants(idle, Unknown, env);
    var d := Wants(idle, Running, env);
    assert GiveUpOrder(pending, idle, env) == (a + a) + (b + c + d);
    TakenBefore(a + a, b + c + d, n, p, q);
  }

  lemma UnknownThenRunning(pending: seq<string>, idle: seq<string>, env: Answers, n: nat, p: string, q: string)
    requires p in Take(GiveUpOrder(pending, idle, env), n) && p !in pending && !Unknown.Takes(FindPod(env, p))
    requires q in idle && Unknown.Takes(FindPod(env, q))
    ensures q in Take(GiveUpOrder(pending, idle, env), n)
  {
    hide Wants, Take;
    var a, b, c := Wants(pending, NoHost, env), Wants(pending, AnyHost, env), Wants(idle, Unknown, env);
    var d := Wants(idle, Running, env);
    assert GiveUpOrder(pending, idle, env) == (a + a + b + c) + d;
    TakenBefore(a + a + b + c, d, n, p, q);
  }

  lemma TakenBefore(first: seq<string>, rest: seq<string>, n: nat, p: string, q: string)
    requires p in Take(first + rest, n) && p !in first && q in first
    ensures q in Take(first + rest, n)
  {
    var taken := Take(first + rest, n);
    var i :| 0 <= i < |taken| && taken[i] == p;
    var j :| 0 <= j < |first| && first[j] == q;
    assert taken[j] == q;
  }

  /** Up to `n` unoccupied pods, the cheapest to lose first; all of them if none is asked for. */
  method GetPodsToBeDelete(pool: Pool, n: nat, env: Answers) returns (names: seq<string>, pending: seq<string>,
      idle: seq<string>)
    requires pool.Valid()
    ensures forall p :: p in pending <==> p in InState(pool.view, PodPending)
    ensures forall p :: p in idle <==> p in InState(pool.view, PodIdle)
    ensures names == Take(GiveUpOrder(pending, idle, env), n)
    ensures forall i :: 0 <= i < |names| ==> names[i] in Unoccupied(pool.view)
  {
    hide Pool.Valid, Wants;
    pending := pool.PodListOfState(PodPending);
    names := PickCandidates(pending, [], n, NoHost, env);
    names := PickCandidates(pending, names, n, NoHost, env);
    names := PickCandidates(pending, names, n, AnyHost, env);
    idle := pool.PodListOfState(PodIdle);
    names := PickCandidates(idle, names, n, Unknown, env);
    names := PickCandidates(idle, names, n, Running, env);
    TakeFive(Wants(pending, NoHost, env), Wants(pending, NoHost, env), Wants(pending, AnyHost, env),
             Wants(idle, Unknown, env), Wants(idle, Running, env), n);
    forall i | 0 <= i < |names|
      ensures names[i] in Unoccupied(pool.view)
    {
      assert names[i] == GiveUpOrder(pending, idle, env)[i];
      assert names[i] in GiveUpOrder(pending, idle, env);
    }
  }

  lemma TakeMore(a: seq<string>, b: seq<string>, n: nat)
    ensures Take(Take(a, n) + b, n) == Take(a + b, n)
  {
  }

  lemma TakeFive(a: seq<string>, b: seq<string>, c: seq<string>, d: seq<string>, e: seq<string>, n: nat)
    ensures Take(Take(Take(Take(Take([] + a, n) + b, n) + c, n) + d, n) + e, n) == Take(a + b + c + d + e, n)
  {
    assert [] + a == a;
    TakeMore(a, b, n);
    TakeMore(a + b, c, n);
    TakeMore(a + b + c, d, n);
    TakeMore(a + b + c + d, e, n);
  }

  lemma OneMoreGone(v: View, w: View, w': View, gone: set<string>, name: string)
    requires ScaledDown(v, w, gone) && name in Unoccupied(v) && MarkedForDeletion(w, w', name)
    requires name in w.pods && !w.pods[name].state.PodDeleting? ==> name !in w'.pods || w'.pods[name].state.PodDeleting?
    ensures ScaledDown(v, w', gone + {name})
  {
    if name in w.pods { assert w.pods[name].sessions + {} == w.pods[name].sessions; }
  }

  /** Deletes the listed pods one by one, stopping at the first failure. */
  method DeletePods(pool: Pool, names: seq<string>, env: Answers) returns (gone: set<string>, ok: bool, upto: nat)
    requires pool.Valid() && Inv(pool.view) && forall i :: 0 <= i < |names| ==> names[i] in Unoccupied(pool.view)
    modifies pool, pool.repr
    ensures pool.Valid() && Inv(pool.view) && fresh(pool.repr - old(pool.repr))
    ensures upto <= |names| && ScaledDown(old(pool.view), pool.view, gone) && gone == SetOf(names[..upto])
    ensures |gone| <= |names| && (names != [] ==> gone != {})
    ensures ok ==> upto == |names| && gone == SetOf(names)
    ensures !ok ==> upto > 0 && names[upto - 1] in pool.view.pods && pool.view.pods[names[upto - 1]].state.PodDeleting?
  {
    hide Pool.Valid, Inv, ScaledDown, Unoccupied, MarkedForDeletion, AlreadyDeleting, SetOf, AddOrUpdatePod, DeletePod;
    gone, ok, upto := {}, true, 0;
    NothingGone(pool.view);
    SetOfPrefix(names, 0);
    for i := 0 to |names|
      invariant pool.Valid() && Inv(pool.view) && fresh(pool.repr - old(pool.repr))
      invariant upto == i && ScaledDown(old(pool.view), pool.view, gone) && ok && gone == SetOf(names[..i])
    {
      ghost var before := pool.view;
      var asked: bool;
      ok, asked := DeleteApplicationPod(pool, names[i], env);
      OneMoreGone(old(pool.view), before, pool.view, gone, names[i]);
      SetOfStep(names, i);
      gone, upto := gone + {names[i]}, i + 1;
      if !ok {
        SetOfPrefix(names, i + 1);
        return;
      }
    }
    SetOfPrefix(names, |names|);
  }

  ghost function SetOf(names: seq<string>): set<string> {
    set n | n in names
  }

  lemma SetOfStep(names: seq<string>, i: nat)
    requires i < |names|
    ensures SetOf(names[..i + 1]) == SetOf(names[..i]) + {names[i]}
  {
    assert names[..i + 1] == names[..i] + [names[i]];
  }

  lemma {:induction false} SetOfPrefix(names: seq<string>, i: nat)
    requires i <= |names|
    ensures |SetOf(names[..i])| <= i && (SetOf(names[..i]) == {} <==> i == 0)
    ensures i == |names| ==> names[..i] == names
    decreases i
  {
    if i > 0 {
      SetOfPrefix(names, i - 1);
      SetOfStep(names, i - 1);
    }
  }

  lemma NothingGone(v: View)
    ensures ScaledDown(v, v, {}) && ScaledUp(v, v, {})
  {
  }

  lemma OneMoreCreated(v: View, w: View, created: set<string>, name: string)
    requires Inv(w) && ScaledUp(v, w, created)
    ensures Inv(AddOrUpdatePod(w, name, PodPending, {}))
    ensures ScaledUp(v, AddOrUpdatePod(w, name, PodPending, {}), if name in w.pods then created else created + {name})
  {
    if name in w.pods {
      if w.pods[name].state.PodPending? { StillPending(w, name); }
    } else {
      ApplyKeepsInv(w, PodAs(name, PodPending, {}));
    }
  }

  /** The pods that the replies name. */
  function Names(replies: seq<CreateReply>): set<string> {
    set r | r in replies && r.Created? :: r.name
  }

  /** What the replies so far amount to. */
  ghost predicate Logged(replies: seq<CreateReply>, created: set<string>, before: set<string>, ok: bool) {
    && created == Names(replies) - before && |created| <= |replies|
    && (ok <==> CreateFailed !in replies || NamespaceTerminating in replies)
  }

  lemma LoggedNone(before: set<string>)
    ensures Logged([], {}, before, true)
  {
  }

  lemma LoggedOne(replies: seq<CreateReply>, created: set<string>, before: set<string>, ok: bool, r: CreateReply)
    requires Logged(replies, created, before, ok) && NamespaceTerminating !in replies
    ensures match r
            case NamespaceTerminating => Logged(replies + [r], created, before, true)
            case CreateFailed => Logged(replies + [r], created, before, false)
            case Created(name) => Logged(replies + [r], created + ({name} - before), before, ok)
    ensures NamespaceTerminating in replies + [r] <==> r.NamespaceTerminating?
  {
    NamesSnoc(replies, r);
    if r.Created? {
      assert created + ({r.name} - before) <= created + {r.name};
      assert |created + ({r.name} - before)| <= |created| + 1;
    }
  }

  /** Asks for `n` pods, or until it is told that the namespace is going away. */
  method CreatePods(pool: Pool, n: nat) returns (created: set<string>, ok: bool, replies: seq<CreateReply>)
    requires pool.Valid() && Inv(pool.view)
    modifies pool, pool.repr
    ensures pool.Valid() && Inv(pool.view) && fresh(pool.repr - old(pool.repr))
    ensures ScaledUp(old(pool.view), pool.view, created) && Logged(replies, created, old(pool.view).pods.Keys, ok)
    ensures |replies| == n || (0 < |replies| < n && replies[|replies| - 1].NamespaceTerminating?)
  {
    hide Pool.Valid, Inv, ScaledUp, Logged;
    created, ok, replies := {}, true, [];
    ghost var v := pool.view;
    NothingGone(v);
    LoggedNone(v.pods.Keys);
    for i := 0 to n
      invariant pool.Valid() && Inv(pool.view) && fresh(pool.repr - old(pool.repr)) && |replies| == i
      invariant ScaledUp(v, pool.view, created) && Logged(replies, created, v.pods.Keys, ok)
                && NamespaceTerminating !in replies
    {
      var reply := CreatePod();
      LoggedOne(replies, created, v.pods.Keys, ok, reply);
      replies := replies + [reply];
      match reply {
        case NamespaceTerminating => return created, true, replies;
        case CreateFailed => ok := false;
        case Created(name) => created := AddCreated(pool, v, created, name);
      }
    }
  }

  method AddCreated(pool: Pool, ghost v: View, created: set<string>, name: string) returns (created': set<string>)
    requires pool.Valid() && Inv(pool.view) && ScaledUp(v, pool.view, created)
    modifies pool, pool.repr
    ensures pool.Valid() && Inv(pool.view) && fresh(pool.repr - old(pool.repr))
    ensures ScaledUp(v, pool.view, created')
    ensures created' == created + ({name} - v.pods.Keys)
  {
    hide Pool.Valid, Inv, ScaledUp, AddOrUpdatePod;
    OneMoreCreated(v, pool.view, created, name);
    NewName(v, pool.view, created, name);
    var present := pool.GetPod(name);
    created' := if present == null then created + {name} else created;
    pool.AddOrUpdatePod(name, PodPending, {});
  }

  lemma NewName(v: View, w: View, created: set<string>, name: string)
    requires ScaledUp(v, w, created)
    ensures (if name in w.pods then created else created + {name}) == created + ({name} - v.pods.Keys)
  {
    if name in w.pods { assert created + ({name} - v.pods.Keys) == created; }
  }

  lemma NamesSnoc(replies: seq<CreateReply>, r: CreateReply)
    ensures Names(replies + [r]) == Names(replies) + if r.Created? then {r.name} else {}
    ensures CreateFailed in replies + [r] <==> CreateFailed in replies || r.CreateFailed?
    ensures NamespaceTerminating in replies + [r] <==> NamespaceTerminating in replies || r.NamespaceTerminating?
  {
    assert forall x :: x in replies + [r] <==> x in replies || x == r;
    if r.Created? { assert r in replies + [r]; }
  }

  /** A pod that a scale-down can pick. */
  ghost predicate Spare(v: View, env: Answers, n: string) {
    n in v.pods && (v.pods[n].state.PodPending? ||
                    (v.pods[n].state.PodIdle? &&
                     (n !in env.known || env.known[n].phase.PhaseUnknown? || env.known[n].phase.PhaseRunning?)))
  }

  /** Creates or deletes towards the wanted number, at most a burst at a time. */
  method DeployApplicationPods(pool: Pool, policy: Policy, env: Answers, desiredAddition: int)
      returns (changed: set<string>, ok: bool, replies: seq<CreateReply>)
    requires pool.Valid() && Inv(pool.view)
    modifies pool, pool.repr
    ensures pool.Valid() && Inv(pool.view) && fresh(pool.repr - old(pool.repr))
    ensures |changed| <= Burst(policy)
    ensures desiredAddition > 0 && NamespaceTerminating !in replies ==>
              |replies| == Min(desiredAddition, if policy.burst == 0 then 2 else policy.burst)
    ensures desiredAddition > 0 ==> ScaledUp(old(pool.view), pool.view, changed) && |changed| <= desiredAddition
    ensures desiredAddition > 0 ==>
              && Logged(replies, changed, old(pool.view).pods.Keys, ok)
              && (|replies| == Min(desiredAddition, Burst(policy))
                  || (replies != [] && replies[|replies| - 1].NamespaceTerminating?))
    ensures desiredAddition < 0 ==> ScaledDown(old(pool.view), pool.view, changed) && |changed| <= -desiredAddition
    ensures desiredAddition < 0 && (exists n :: Spare(old(pool.view), env, n)) ==> changed != {}
    ensures desiredAddition == 0 ==> pool.view == old(pool.view) && changed == {}
  {
    hide Pool.Valid, Inv, ScaledUp, ScaledDown, Unoccupied;
    var burst := Burst(policy);
    changed, ok, replies := {}, true, [];
    if desiredAddition > 0 {
      changed, ok, replies := CreatePods(pool, if desiredAddition > burst then burst else desiredAddition);
    } else if desiredAddition < 0 {
      var substraction := if -desiredAddition > burst then burst else -desiredAddition;
      var names, pending, idle := GetPodsToBeDelete(pool, substraction, env);
      if n :| Spare(pool.view, env, n) {
        assert n in GiveUpOrder(pending, idle, env);
        assert names != [];
      }
      var upto: nat;
      changed, ok, upto := DeletePods(pool, names, env);
    }
  }

  /** Pending pods may be marked or forgotten, deleting ones forgotten; allocated and idle pods are left alone. */
  ghost predicate Pruned(v: View, v': View) {
    && v'.sessions == v.sessions && v'.pods.Keys <= v.pods.Keys
    && (forall n :: n in v.pods && (v.pods[n].state.PodAllocated? || v.pods[n].state.PodIdle?) ==>
          n in v'.pods && v'.pods[n] == v.pods[n])
    && (forall n :: n in v'.pods ==>
          || v'.pods[n] == v.pods[n]
          || (v.pods[n].state.PodPending? && v'.pods[n] == PodView(PodDeleting, v.pods[n].sessions)))
  }

  lemma OneMorePruned(v: View, w: View, w': View, name: string)
    requires Pruned(v, w) && (MarkedForDeletion(w, w', name) || w' == DeletePod(w, name))
    requires name in v.pods && (v.pods[name].state.PodPending? || v.pods[name].state.PodDeleting?)
    ensures Pruned(v, w')
  {
    if name in w.pods { assert w.pods[name].sessions + {} == w.pods[name].sessions; }
  }

  lemma NothingPruned(v: View)
    ensures Pruned(v, v)
  {
  }

  /** A pending pod of a node that has not reported it for too long. */
  predicate Overdue(env: Answers, n: string) {
    n in env.known && !env.known[n].phase.PhaseRunning? && env.known[n].startedLongAgo && env.known[n].hasHostIP
  }

  /** What becomes of a pending pod: forgotten if nobody knows it, given up if overdue, left alone otherwise. */
  ghost predicate PendingPruned(v: View, v': View, env: Answers, n: string)
    requires n in v.pods
  {
    if n !in env.known then n !in v'.pods
    else if Overdue(env, n) then n in v'.pods ==> v'.pods[n].state.PodDeleting?
    else n in v'.pods && v'.pods[n] == v.pods[n]
  }

  /** Retries deletions and gives up pending pods that a node never reported. */
  method PruneDeadPods(pool: Pool, env: Answers) returns (asked: set<string>)
    requires pool.Valid() && Inv(pool.view)
    modifies pool, pool.repr
    ensures pool.Valid() && Inv(pool.view) && fresh(pool.repr - old(pool.repr))
    ensures Pruned(old(pool.view), pool.view)
    ensures forall n :: n in old(pool.view).pods && old(pool.view).pods[n].state.PodPending? ==>
              PendingPruned(old(pool.view), pool.view, env, n)
    ensures forall n :: n in old(pool.view).pods && old(pool.view).pods[n].state.PodPending? && n in env.known
                        && (env.known[n].phase.PhaseRunning? || !env.known[n].startedLongAgo
                            || !env.known[n].hasHostIP) ==>
              n in pool.view.pods && pool.view.pods[n] == old(pool.view).pods[n]
    ensures forall n :: n in old(pool.view).pods && old(pool.view).pods[n].state.PodPending? && n in env.known
                        && !env.known[n].phase.PhaseRunning? && env.known[n].startedLongAgo && env.known[n].hasHostIP
                        && n in pool.view.pods ==>
              pool.view.pods[n].state.PodDeleting?
    ensures forall n :: n in asked <==>
              && n in old(pool.view).pods && n in env.known
              && match old(pool.view).pods[n].state
                 case PodPending => Overdue(env, n)
                 case PodDeleting => env.known[n].deletionTimedOut
                 case _ => false
  {
    hide Pool.Valid, Inv, Pruned, MarkedForDeletion, AlreadyDeleting;
    ghost var v := pool.view;
    NothingPruned(v);
    var pending := pool.PodListOfState(PodPending);
    var deleting := pool.PodListOfState(PodDeleting);
    asked := {};
    for i := 0 to |pending|
      invariant pool.Valid() && Inv(pool.view) && fresh(pool.repr - old(pool.repr)) && Pruned(v, pool.view)
      invariant forall k :: 0 <= k < i ==> PendingPruned(v, pool.view, env, pending[k])
      invariant forall k :: i <= k < |pending| ==>
                  pending[k] in pool.view.pods && pool.view.pods[pending[k]] == v.pods[pending[k]]
      invariant forall n :: n in asked <==> n in pending[..i] && Overdue(env, n)
      invariant forall n :: n in deleting ==> n in pool.view.pods && pool.view.pods[n] == v.pods[n]
    {
      assert pending[i] in pending;
      assert pending[..i + 1] == pending[..i] + [pending[i]];
      var one := PrunePending(pool, env, v, pending[i]);
      asked := if one then asked + {pending[i]} else asked;
    }
    assert pending[..|pending|] == pending;
    var again := RetryDeletions(pool, env, v, deleting, pending);
    asked := asked + again;
  }

  /** Asks again for the deletions whose time is up. */
  method RetryDeletions(pool: Pool, env: Answers, ghost v: View, deleting: seq<string>, ghost others: seq<string>)
    returns (asked: set<string>)
    requires pool.Valid() && Inv(pool.view) && Pruned(v, pool.view) && NoDuplicates(deleting)
    requires forall n :: n in deleting ==> n in v.pods && v.pods[n].state.PodDeleting?
    requires forall n :: n in deleting ==> n in pool.view.pods && pool.view.pods[n] == v.pods[n]
    requires forall n :: n in others ==> n !in deleting && n in v.pods && PendingPruned(v, pool.view, env, n)
    modifies pool, pool.repr
    ensures pool.Valid() && Inv(pool.view) && fresh(pool.repr - old(pool.repr)) && Pruned(v, pool.view)
    ensures forall n :: n in others ==> PendingPruned(v, pool.view, env, n)
    ensures forall n :: n in asked <==> n in deleting && n in env.known && env.known[n].deletionTimedOut
  {
    hide Pool.Valid, Inv, Pruned, MarkedForDeletion, AlreadyDeleting, Overdue;
    asked := {};
    for i := 0 to |deleting|
      invariant pool.Valid() && Inv(pool.view) && fresh(pool.repr - old(pool.repr)) && Pruned(v, pool.view)
      invariant forall n :: n in others ==> PendingPruned(v, pool.view, env, n)
      invariant forall k :: i <= k < |deleting| ==>
                  deleting[k] in pool.view.pods && pool.view.pods[deleting[k]] == v.pods[deleting[k]]
      invariant forall n :: n in asked <==> n in deleting[..i] && n in env.known && env.known[n].deletionTimedOut
    {
      ghost var before := pool.view;
      assert deleting[i] in deleting && deleting[..i + 1] == deleting[..i] + [deleting[i]];
      var _, one := DeleteApplicationPod(pool, deleting[i], env);
      asked := if one then asked + {deleting[i]} else asked;
      OneMorePruned(v, before, pool.view, deleting[i]);
      OthersAlone(before, pool.view, deleting[i]);
    }
    assert deleting[..|deleting|] == deleting;
  }

  lemma OthersAlone(w: View, w': View, name: string)
    requires MarkedForDeletion(w, w', name) || w' == DeletePod(w, name)
    ensures forall n :: n != name ==> (n in w'.pods <==> n in w.pods) && (n in w.pods ==> w'.pods[n] == w.pods[n])
  {
  }

  method PrunePending(pool: Pool, env: Answers, ghost v: View, name: string) returns (asked: bool)
    requires pool.Valid() && Inv(pool.view) && Pruned(v, pool.view)
    requires name in v.pods && v.pods[name].state.PodPending? && name in pool.view.pods
             && pool.view.pods[name] == v.pods[name]
    modifies pool, pool.repr
    ensures pool.Valid() && Inv(pool.view) && fresh(pool.repr - old(pool.repr)) && Pruned(v, pool.view)
    ensures PendingPruned(v, pool.view, env, name) && (asked <==> Overdue(env, name))
    ensures forall n :: n != name ==> (n in pool.view.pods <==> n in old(pool.view).pods)
                                      && (n in pool.view.pods ==> pool.view.pods[n] == old(pool.view).pods[n])
  {
    hide Pool.Valid, Inv, Pruned, MarkedForDeletion, AlreadyDeleting;
    ghost var before := pool.view;
    asked := false;
    var info := FindPod(env, name);
    if info.Some? {
      if info.value.phase.PhaseRunning? {
        return;
      }
      if info.value.startedLongAgo && info.value.hasHostIP {
        var _, one := DeleteApplicationPod(pool, name, env);
        asked := one;
        OneMorePruned(v, before, pool.view, name);
        OthersAlone(before, pool.view, name);
      }
    } else {
      ApplyKeepsInv(pool.view, PodGone(name));
      pool.DeletePod(name);
      OneMorePruned(v, before, pool.view, name);
      OthersAlone(before, pool.view, name);
    }
  }

  // ---------- The whole sync ----------

  /** A pod that ends up marked for deletion was marked before, or no session is bound to it. */
  ghost predicate NoBoundPodMarked(v: View, v': View) {
    forall n :: n in v'.pods && v'.pods[n].state.PodDeleting? ==>
      (n in v.pods && v.pods[n].state.PodDeleting?) || v'.pods[n].sessions == {}
  }

  lemma SessionPhaseMarksNothing(v: View, bound: seq<Binding>, v': View, now: int)
    requires Inv(v) && CanBind(v, bound) && UnboundOnly(BindAll(v, bound, now), v')
    ensures forall n :: n in v'.pods && v'.pods[n].state.PodDeleting? ==> n in v.pods && v.pods[n].state.PodDeleting?
  {
    hide Inv, BindAll;
    BindAllEffect(v, bound, now);
    var w := BindAll(v, bound, now);
    assert forall n :: n in BoundPods(bound) ==> w.pods[n].state.PodAllocated?;
    forall n | n in v'.pods && v'.pods[n].state.PodDeleting?
      ensures n in v.pods && v.pods[n].state.PodDeleting?
    {
      assert w.pods[n].state.PodDeleting?;
    }
  }

  lemma PodPhaseMarksUnbound(v: View, w: View, v': View, changed: set<string>)
    requires Inv(v) && Inv(w) && (ScaledUp(v, w, changed) || ScaledDown(v, w, changed)) && Pruned(w, v')
    ensures v'.sessions == v.sessions
    ensures forall n :: n in v.pods && v.pods[n].state.PodAllocated? ==> n in v'.pods && v'.pods[n] == v.pods[n]
    ensures forall n :: n in v'.pods && v'.pods[n].state.PodDeleting? ==>
              (n in v.pods && v.pods[n] == v'.pods[n]) || v'.pods[n].sessions == {}
  {
    assert forall n :: n in v.pods ==> Consistent(v.pods[n]);
    assert forall n :: n in w.pods ==> Consistent(w.pods[n]);
  }

  lemma DealtBySessions(v: View, w: View, w': View, env: Answers, now: int)
    requires ExpiredDealt(v, w, env, now) && w'.sessions == w.sessions
    ensures ExpiredDealt(v, w', env, now)
  {
    hide TimedOut;
  }

  lemma WaitingCount(v: View, pending: seq<Session>, now: int)
    requires Inv(v) && Lists(v, pending, {SessionPending}, {false}, now)
    ensures |pending| == |WaitingIds(v, now)|
  {
    hide TimedOut, Inv;
    UidsCount(pending);
    forall id | id in WaitingIds(v, now)
      ensures id in Uids(pending)
    {
      WaitingIsLive(v, id);
      assert v.sessions[id].session in pending;
    }
    forall id | id in Uids(pending)
      ensures id in WaitingIds(v, now)
    {
      var s :| s in pending && s.uid == id;
      var k :| 0 <= k < |pending| && pending[k] == s;
    }
    assert Uids(pending) == WaitingIds(v, now);
  }

  lemma {:induction false} UidsCount(xs: seq<Session>)
    requires DistinctIds(xs)
    ensures |Uids(xs)| == |xs|
  {
    if xs != [] {
      var n := |xs| - 1;
      UidsCount(xs[..n]);
      UidsSnoc(xs, n);
      assert xs[..n + 1] == xs;
    }
  }

  lemma ServedStays(v: View, v': View, bound: seq<Binding>, now: int)
    requires AllServed(v, bound, now) && v'.sessions == v.sessions
    requires forall n :: n in v.pods && v.pods[n].state.PodAllocated? ==> n in v'.pods && v'.pods[n] == v.pods[n]
    ensures AllServed(v', bound, now)
  {
  }

  lemma UnoccupiedCount(v: View)
    ensures |Unoccupied(v)| == |InState(v, PodPending)| + |InState(v, PodIdle)|
  {
    assert Unoccupied(v) == InState(v, PodPending) + InState(v, PodIdle);
    assert InState(v, PodPending) !! InState(v, PodIdle);
  }

  /** A deployment of pods is a step of the autoscaler's run, or fails to move at all. */
  lemma DeploymentIsSyncStep(v: View, w: View, changed: set<string>, policy: Policy, occupied: nat, waiting: nat,
      addition: int)
    requires addition == DesiredIdlePods(policy, occupied, |Unoccupied(v)|, waiting) - |Unoccupied(v)|
    requires |changed| <= Burst(policy)
    requires addition > 0 ==> ScaledUp(v, w, changed) && |changed| <= addition
    requires addition < 0 ==> ScaledDown(v, w, changed) && |changed| <= -addition
    requires addition == 0 ==> w == v
    ensures |Unoccupied(w)| == |Unoccupied(v)| || SyncStep(policy, occupied, waiting, |Unoccupied(v)|, |Unoccupied(w)|)
    ensures addition < 0 && changed != {} ==> |Unoccupied(w)| < |Unoccupied(v)|
  {
    hide Unoccupied, ScaledUp, ScaledDown;
    if addition > 0 {
      ScaledUpCount(v, w, changed);
    } else if addition < 0 {
      ScaledDownCount(v, w, changed);
      if changed != {} { var c :| c in changed; assert |changed| == |changed - {c}| + 1; }
    }
  }

  /**
    A sync of an application that is not being deleted: sessions first, then pods towards the
    autoscaler's target, then pruning. `bound` is the pass; `afterSessions` and `afterScaling` are the pool in between;
    `scaled` is false when the session part failed and the rest was skipped.
   */
  method SyncApplication(pool: Pool, policy: Policy, env: Answers, now: int)
    returns (ok: bool, scaled: bool, waiting: nat, ghost bound: seq<Binding>, ghost afterSessions: View,
             ghost afterScaling: View)
    requires pool.Valid() && Inv(pool.view)
    modifies pool, pool.repr
    ensures pool.Valid() && Inv(pool.view) && fresh(pool.repr - old(pool.repr))
    ensures NoBoundPodMarked(old(pool.view), pool.view)
    ensures CanBind(old(pool.view), bound) && OldestFirst(old(pool.view), bound, now)
            && NothingWasted(old(pool.view), bound, env, now) && AllWaited(old(pool.view), bound, now)
    ensures AllServed(pool.view, bound, now) && ExpiredDealt(old(pool.view), pool.view, env, now)
    ensures UnboundOnly(BindAll(old(pool.view), bound, now), afterSessions)
    ensures scaled ==> waiting == |WaitingIds(afterSessions, now)|
    ensures scaled ==> forall n :: n in afterScaling.pods && afterScaling.pods[n].state.PodPending? ==>
              PendingPruned(afterScaling, pool.view, env, n)
    ensures forall n :: n in afterSessions.pods && afterSessions.pods[n].state.PodAllocated? ==>
              n in pool.view.pods && pool.view.pods[n] == afterSessions.pods[n]
    ensures scaled ==>
              || |Unoccupied(afterScaling)| == |Unoccupied(afterSessions)|
              || SyncStep(policy, |InState(afterSessions, PodAllocated)|, waiting, |Unoccupied(afterSessions)|,
                          |Unoccupied(afterScaling)|)
    ensures scaled && |Unoccupied(afterScaling)| == |Unoccupied(afterSessions)|
            && (exists n :: Spare(afterSessions, env, n)) ==>
              |Unoccupied(afterSessions)| <=
              DesiredIdlePods(policy, |InState(afterSessions, PodAllocated)|, |Unoccupied(afterSessions)|, waiting)
    ensures Pruned(afterScaling, pool.view) && (!scaled ==> pool.view == afterSessions)
  {
    hide Pool.Valid, Inv, CanBind, OldestFirst, NothingWasted, UnboundOnly, BindAll;
    hide ScaledUp, ScaledDown, Pruned, Lists, Unoccupied, Spare;
    hide PendingPruned, TimedOut, SyncStep, DesiredIdlePods, AllWaited, AllServed, ExpiredDealt, WaitingIds;
    var ok0;
    bound, ok0 := DeployApplicationSessions(pool, env, now);
    afterSessions, afterScaling := pool.view, pool.view;
    SessionPhaseMarksNothing(old(pool.view), bound, pool.view, now);
    NothingPruned(pool.view);
    ok, scaled, waiting := ok0, ok0, 0;
    if ok0 {
      var pending, _ := pool.SplitByTimeout(SessionPending, now);
      waiting := |pending|;
      WaitingCount(pool.view, pending, now);
      var occupied, pendingPods, idlePods := pool.ActivePodNums();
      UnoccupiedCount(pool.view);
      var addition := DesiredIdlePods(policy, occupied, pendingPods + idlePods, waiting) - (pendingPods + idlePods);
      var changed, replies;
      changed, ok, replies := DeployApplicationPods(pool, policy, env, addition);
      afterScaling := pool.view;
      NothingGone(afterScaling);
      DeploymentIsSyncStep(afterSessions, afterScaling, changed, policy, occupied, waiting, addition);
      var _ := PruneDeadPods(pool, env);
      PodPhaseMarksUnbound(afterSessions, afterScaling, pool.view, changed);
      ServedStays(afterSessions, pool.view, bound, now);
      DealtBySessions(old(pool.view), afterSessions, pool.view, env, now);
    }
  }

  /** A sync of an application that is being deleted: close its sessions, or, once there are none, delete its pods. */
  method CleanupDeletedApplication(pool: Pool, env: Answers) returns (ok: bool)
    requires pool.Valid() && Inv(pool.view)
    modifies pool, pool.repr
    ensures pool.Valid() && Inv(pool.view) && fresh(pool.repr - old(pool.repr))
    ensures old(pool.view).sessions != map[] ==> UnboundOnly(old(pool.view), pool.view)
    ensures old(pool.view).sessions != map[] && ok ==>
              forall id :: id in pool.view.sessions ==>
                id in old(pool.view).sessions && old(pool.view).sessions[id].session.IsOpen()
    ensures forall id :: id in old(pool.view).sessions ==> Dealt(pool.view, old(pool.view).sessions[id], env)
    ensures old(pool.view).sessions == map[] ==>
              && pool.view.sessions == map[]
              && forall n :: n in pool.view.pods ==> n in old(pool.view).pods && pool.view.pods[n].state.PodDeleting?
  {
    hide Pool.Valid, Inv, UnboundOnly, MarkedForDeletion, AlreadyDeleting;
    ghost var v := pool.view;
    var sessions := pool.SessionList();
    if |sessions| > 0 {
      FiledUnderUid(v);
      forall k | 0 <= k < |sessions|
        ensures sessions[k].uid in v.sessions && v.sessions[sessions[k].uid].session == sessions[k]
      {
        assert sessions[k] in sessions;
      }
      ok := DeleteSessions(pool, sessions, env);
      forall id | id in v.sessions
        ensures id in Uids(sessions)
      {
        assert v.sessions[id].session in sessions;
      }
      forall id | ok && id in pool.view.sessions
        ensures v.sessions[id].session.IsOpen()
      {
        var k :| 0 <= k < |sessions| && sessions[k] == v.sessions[id].session;
      }
    } else {
      ok := true;
      var names := pool.PodList();
      for i := 0 to |names|
        invariant pool.Valid() && Inv(pool.view) && fresh(pool.repr - old(pool.repr))
                  && pool.view.sessions == v.sessions
        invariant forall n :: n in pool.view.pods ==> n in v.pods
        invariant forall k :: 0 <= k < i && names[k] in pool.view.pods ==> pool.view.pods[names[k]].state.PodDeleting?
      {
        ghost var before := pool.view;
        var one, _ := DeleteApplicationPod(pool, names[i], env);
        MarkKeepsInv(before, pool.view, names[i]);
        ok := ok && one;
      }
    }
  }

  lemma FiledUnderUid(v: View)
    requires Inv(v)
    ensures forall id :: id in v.sessions ==> v.sessions[id].session.uid == id
  {
    assert forall id :: id in v.sessions ==> FiledRight(id, v.sessions[id]);
  }

  // ---------- From a new pod to a session ----------

  /** The new pods that their nodes report running are free for sessions. */
  method ReportRunning(pool: Pool, created: set<string>, env: Answers)
    requires pool.Valid() && Inv(pool.view)
    requires forall n :: n in created ==> n in pool.view.pods && pool.view.pods[n] == PodView(PodPending, {})
    modifies pool, pool.repr
    ensures pool.Valid() && Inv(pool.view) && fresh(pool.repr - old(pool.repr))
    ensures pool.view.sessions == old(pool.view).sessions
    ensures forall n :: n in created ==> n in pool.view.pods && pool.view.pods[n] == PodView(PodIdle, {})
    ensures forall n :: n !in created ==> (n in pool.view.pods <==> n in old(pool.view).pods)
                                          && (n in pool.view.pods ==> pool.view.pods[n] == old(pool.view).pods[n])
  {
    hide Pool.Valid, Inv, Reported, MarkedForDeletion;
    var left := created;
    while left != {}
      invariant left <= created && pool.Valid() && Inv(pool.view) && fresh(pool.repr - old(pool.repr))
      invariant pool.view.sessions == old(pool.view).sessions
      invariant forall n :: n in created ==>
                  n in pool.view.pods && pool.view.pods[n] == PodView(if n in left then PodPending else PodIdle, {})
      invariant forall n :: n !in created ==> (n in pool.view.pods <==> n in old(pool.view).pods)
                                              && (n in pool.view.pods ==> pool.view.pods[n] == old(pool.view).pods[n])
      decreases left
    {
      var name :| name in left;
      var _ := HandlePodAddUpdateFromNode(pool, Report(name, PhaseRunning, None, false), env);
      left := left - {name};
    }
  }

  /**
    Pods are created, their nodes report them running, and a sync follows: if all idle pods are willing, every session
    that waited has a pod, or every new pod has a session; with as many new pods as sessions, it is the former.
    After the sync each pod of the pass is allocated to its session.
   */
  method NewPodsServe(pool: Pool, n: nat, policy: Policy, env: Answers, now: int)
    returns (created: set<string>, ghost ready: View, ghost bound: seq<Binding>)
    requires pool.Valid() && Inv(pool.view)
    modifies pool, pool.repr
    ensures pool.Valid() && Inv(pool.view) && created !! old(pool.view).pods.Keys
    ensures ready.pods.Keys == old(pool.view).pods.Keys + created && ready.sessions == old(pool.view).sessions
    ensures CanBind(ready, bound) && AllWaited(ready, bound, now) && AllServed(pool.view, bound, now)
    ensures (forall m :: m in ready.pods && ready.pods[m].state.PodIdle? ==> m in env.known && m in env.accepting) ==>
              || WaitingIds(old(pool.view), now) <= BoundIds(bound)
              || created <= BoundPods(bound)
    ensures (forall m :: m in ready.pods && ready.pods[m].state.PodIdle? ==> m in env.known && m in env.accepting)
            && |WaitingIds(old(pool.view), now)| <= |created| ==>
              WaitingIds(old(pool.view), now) == BoundIds(bound)
  {
    hide Pool.Valid, Inv, CanBind, UnboundOnly, BindAll, TimedOut, Late;
    hide OldestFirst, AllWaited, AllServed, NothingWasted, BoundIds, BoundPods, Logged, Pruned, SyncStep, Unoccupied;
    hide DesiredIdlePods, Spare, NoBoundPodMarked;
    ghost var v := pool.view;
    var ok, replies;
    created, ok, replies := CreatePods(pool, n);
    ReportRunning(pool, created, env);
    ready := pool.view;
    var scaled, waiting;
    ghost var afterSessions, afterScaling;
    ok, scaled, waiting, bound, afterSessions, afterScaling := SyncApplication(pool, policy, env, now);
    SameWaiting(v, ready, now);
    if forall m :: m in ready.pods && ready.pods[m].state.PodIdle? ==> m in env.known && m in env.accepting {
      WastedMeans(ready, bound, env, now, created);
      if |WaitingIds(v, now)| <= |created| {
        SubsetCount(created, InState(ready, PodIdle));
        EnoughPodsServeAll(ready, bound, env, now);
      }
    }
  }

  lemma SameWaiting(v: View, w: View, now: int)
    requires v.sessions == w.sessions
    ensures WaitingIds(v, now) == WaitingIds(w, now)
  {
  }

  lemma WastedMeans(v: View, bound: seq<Binding>, env: Answers, now: int, some: set<string>)
    requires NothingWasted(v, bound, env, now)
    requires forall n :: n in v.pods && v.pods[n].state.PodIdle? ==> n in env.known && n in env.accepting
    requires forall n :: n in some ==> n in v.pods && v.pods[n].state.PodIdle?
    ensures WaitingIds(v, now) <= BoundIds(bound) || some <= BoundPods(bound)
  {
    hide TimedOut;
  }

  // ---------- Runs ----------

  datatype Event =
    | PodReported(r: Report, env: Answers)
    | PodDeleted(r: Report, env: Answers)
    | SessionAdded(s: Session, now: int)
    | SessionUpdated(s: Session, now: int)
    | SessionDeleted(uid: string, now: int)
    | Sync(policy: Policy, env: Answers, now: int)
    | SyncDeleted(env: Answers)

  /** Whatever events arrive, in whatever order, the pool stays consistent. */
  method HandleEvents(events: seq<Event>) returns (pool: Pool)
    requires forall i :: 0 <= i < |events| ==>
               (events[i].PodReported? || events[i].PodDeleted? ==> GoodReport(events[i].r))
    ensures pool.Valid() && Inv(pool.view)
  {
    hide Pool.Valid, Inv;
    pool := new Pool();
    EmptyInv();
    for i := 0 to |events|
      invariant pool.Valid() && Inv(pool.view) && fresh(pool) && fresh(pool.repr)
    {
      match events[i] {
        case PodReported(r, env) => var _ := HandlePodAddUpdateFromNode(pool, r, env);
        case PodDeleted(r, env) => HandlePodDeleteFromNode(pool, r, env);
        case SessionAdded(s, now) => OnSessionAdd(pool, s, now);
        case SessionUpdated(s, now) => OnSessionUpdate(pool, s, now);
        case SessionDeleted(uid, now) => OnSessionDelete(pool, uid, now);
        case Sync(policy, env, now) => var _, _, _, _, _, _ := SyncApplication(pool, policy, env, now);
        case SyncDeleted(env) => var _ := CleanupDeletedApplication(pool, env);
      }
    }
  }

  lemma EmptyInv()
    ensures Inv(View(map[], map[]))
  {
  }
}
