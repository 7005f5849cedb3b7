/**
  The application pool as it is kept: a map of pods for each pod state and a map of sessions for each
  session state, with pods updated in place as they move between maps. Every operation is proved to
  act on the flat view of PoolView.dfy, so each pod and each session is in exactly one map, the one of its state.
 */
module ApplicationPool {
  import opened Common
  import opened PoolView

  class ApplicationPod {
    const podName: string
    var state: PodState
    var sessions: set<string>

    constructor (podName: string, state: PodState)
      ensures this.podName == podName && this.state == state && sessions == {}
    {
      this.podName, this.state, this.sessions := podName, state, {};
    }
  }

  type PodMaps = map<PodState, map<string, ApplicationPod>>
  type SessionMaps = map<SessionState, map<string, SessionEntry>>

  /** A name dropped from the maps of all states except those still `todo`. */
  ghost predicate Dropped<S(!new), V>(maps: map<S, map<string, V>>, maps': map<S, map<string, V>>, name: string,
      todo: set<S>)
    requires forall st: S :: st in maps
  {
    forall st: S :: st in maps' && maps'[st] == maps[st] - if st in todo then {} else {name}
  }

  lemma NothingDropped<S(!new), V>(maps: map<S, map<string, V>>, name: string)
    requires forall st: S :: st in maps
    ensures Dropped(maps, maps, name, maps.Keys)
  {
    forall st: S ensures maps[st] == maps[st] - {} {}
  }

  lemma DropStep<S(!new), V>(maps: map<S, map<string, V>>, maps': map<S, map<string, V>>, name: string, todo: set<S>,
      st: S)
    requires (forall s: S :: s in maps) && st in todo && Dropped(maps, maps', name, todo)
    ensures Dropped(maps, maps'[st := maps'[st] - {name}], name, todo - {st})
  {
    assert maps[st] - {} == maps[st];
  }

  lemma InMaps<S(!new), V>(maps: map<S, map<string, V>>, maps': map<S, map<string, V>>, name: string, todo: set<S>,
      st: S)
    requires (forall s: S :: s in maps) && Dropped(maps, maps', name, todo)
    ensures st in maps'
  {
  }

  predicate NoDuplicates(xs: seq<string>) {
    forall i, j :: 0 <= i < j < |xs| ==> xs[i] != xs[j]
  }

  lemma BothDistinct(a: seq<string>, b: seq<string>)
    requires NoDuplicates(a) && NoDuplicates(b) && forall x :: x in a ==> x !in b
    ensures NoDuplicates(a + b)
  {
    var c := a + b;
    forall i, j | 0 <= i < j < |c|
      ensures c[i] != c[j]
    {
      if i < |a| <= j { assert c[i] in a && c[j] in b; }
    }
  }

  /** The keys of a map, in some order. */
  method Range<V>(m: map<string, V>) returns (keys: seq<string>)
    ensures NoDuplicates(keys) && |keys| == |m| && forall k :: k in keys <==> k in m
  {
    keys := [];
    var todo := m.Keys;
    while todo != {}
      invariant todo <= m.Keys && NoDuplicates(keys) && |keys| + |todo| == |m|
      invariant forall k :: k in keys <==> k in m && k !in todo
      decreases |todo|
    {
      var k :| k in todo;
      keys := keys + [k];
      todo := todo - {k};
    }
  }

  // What the map of one state should hold.

  ghost function SessionsIn(view: map<string, SessionEntry>, st: SessionState): map<string, SessionEntry> {
    map id | id in view && view[id].state == st :: view[id]
  }

  ghost function PodsIn(objs: map<string, ApplicationPod>, pods: map<string, PodView>, st: PodState): map<string,
      ApplicationPod>
    requires objs.Keys == pods.Keys
  {
    map n | n in pods && pods[n].state == st :: objs[n]
  }

  /** Each session is in the map of its state, and in no other. */
  ghost predicate SessionsFiled(maps: SessionMaps, view: map<string, SessionEntry>) {
    forall st: SessionState :: st in maps && maps[st] == SessionsIn(view, st)
  }

  /** Each pod is in the map of its state, and in no other; `objs` is the pod of each name. */
  ghost predicate PodsFiled(maps: PodMaps, objs: map<string, ApplicationPod>, pods: map<string, PodView>) {
    objs.Keys == pods.Keys && forall st: PodState :: st in maps && maps[st] == PodsIn(objs, pods, st)
  }

  lemma PodMoves(objs: map<string, ApplicationPod>, pods: map<string, PodView>, n: string, p: PodView, st: PodState)
    requires objs.Keys == pods.Keys && n in pods
    ensures PodsIn(objs, pods[n := p], st) ==
            if st == p.state then PodsIn(objs, pods, st)[n := objs[n]] else PodsIn(objs, pods, st) - {n}
  {
  }

  /** Moving a pod from the map of its state to that of the new one files it again. */
  lemma MoveFiles(maps: PodMaps, objs: map<string, ApplicationPod>, pods: map<string, PodView>, n: string, p: PodView)
    requires PodsFiled(maps, objs, pods) && n in pods
    ensures var from := pods[n].state;
            if from == p.state then PodsFiled(maps, objs, pods[n := p])
            else PodsFiled(maps[p.state := maps[p.state][n := objs[n]]][from := maps[from] - {n}], objs, pods[n := p])
  {
    var from := pods[n].state;
    forall st: PodState
      ensures PodsIn(objs, pods[n := p], st) ==
              if st == p.state then PodsIn(objs, pods, st)[n := objs[n]] else PodsIn(objs, pods, st) - {n}
    {
      PodMoves(objs, pods, n, p, st);
    }
    assert PodsIn(objs, pods, from)[n := objs[n]] == PodsIn(objs, pods, from);
    forall st: PodState | st != from
      ensures PodsIn(objs, pods, st) - {n} == PodsIn(objs, pods, st)
    {
    }
  }

  lemma AddFiles(maps: PodMaps, objs: map<string, ApplicationPod>, pods: map<string, PodView>, n: string,
      pod: ApplicationPod,
                 p: PodView)
    requires PodsFiled(maps, objs, pods) && n !in pods
    ensures PodsFiled(maps[p.state := maps[p.state][n := pod]], objs[n := pod], pods[n := p])
  {
    forall st: PodState
      ensures PodsIn(objs[n := pod], pods[n := p], st) ==
              if st == p.state then PodsIn(objs, pods, st)[n := pod] else PodsIn(objs, pods, st)
    {
    }
  }

  lemma RemoveFiles(maps: PodMaps, maps': PodMaps, objs: map<string, ApplicationPod>, pods: map<string, PodView>,
      n: string)
    requires PodsFiled(maps, objs, pods) && Dropped(maps, maps', n, {})
    ensures PodsFiled(maps', objs - {n}, pods - {n})
  {
    forall st: PodState
      ensures PodsIn(objs - {n}, pods - {n}, st) == PodsIn(objs, pods, st) - {n}
    {
    }
  }

  lemma SessionFiles(maps: SessionMaps, view: map<string, SessionEntry>, e: SessionEntry)
    requires SessionsFiled(maps, view)
    ensures var id := e.session.uid;
            var cleared := if id in view && view[id].state != e.state
                           then maps[view[id].state := maps[view[id].state] - {id}] else maps;
            SessionsFiled(cleared[e.state := cleared[e.state][id := e]], view[id := e])
  {
    var id := e.session.uid;
    forall st: SessionState
      ensures SessionsIn(view[id := e], st) ==
              if st == e.state then SessionsIn(view, st)[id := e] else SessionsIn(view, st) - {id}
    {
    }
    forall st: SessionState | id !in view || view[id].state != st
      ensures SessionsIn(view, st) - {id} == SessionsIn(view, st)
    {
    }
  }

  lemma SessionRemoved(maps: SessionMaps, maps': SessionMaps, view: map<string, SessionEntry>, id: string)
    requires SessionsFiled(maps, view) && Dropped(maps, maps', id, {})
    ensures SessionsFiled(maps', view - {id})
  {
    forall st: SessionState
      ensures SessionsIn(view - {id}, st) == SessionsIn(view, st) - {id}
    {
    }
  }

  /** The sessions of `ids`, in order, that are (or are not) timed out. */
  function Pick(entries: map<string, SessionEntry>, ids: seq<string>, late: bool, now: int): seq<Session>
    requires forall id :: id in ids ==> id in entries
  {
    if ids == [] then []
    else
      var s := entries[ids[|ids| - 1]].session;
      Pick(entries, ids[..|ids| - 1], late, now) + if TimedOut(s, now) == late then [s] else []
  }

  lemma {:induction false} PickHas(entries: map<string, SessionEntry>, ids: seq<string>, late: bool, now: int,
      s: Session)
    requires forall id :: id in ids ==> id in entries
    ensures s in Pick(entries, ids, late, now) <==>
            exists j :: 0 <= j < |ids| && entries[ids[j]].session == s && TimedOut(s, now) == late
  {
    if ids != [] {
      PickHas(entries, ids[..|ids| - 1], late, now, s);
    }
  }

  lemma {:induction false} PickDistinct(entries: map<string, SessionEntry>, ids: seq<string>, late: bool, now: int)
    requires NoDuplicates(ids) && (forall id :: id in ids ==> id in entries && entries[id].session.uid == id)
    ensures var xs := Pick(entries, ids, late, now); forall i, j :: 0 <= i < j < |xs| ==> xs[i].uid != xs[j].uid
  {
    if ids != [] {
      var front := ids[..|ids| - 1];
      PickDistinct(entries, front, late, now);
      var xs := Pick(entries, front, late, now);
      forall i | 0 <= i < |xs|
        ensures xs[i].uid != entries[ids[|ids| - 1]].session.uid
      {
        PickHas(entries, front, late, now, xs[i]);
      }
      var s := entries[ids[|ids| - 1]].session;
      assert Pick(entries, ids, late, now) == if TimedOut(s, now) == late then xs + [s] else xs;
    }
  }

  lemma PickLists(v: View, st: SessionState, ids: seq<string>, late: bool, now: int)
    requires Inv(v) && NoDuplicates(ids) && forall id :: id in ids <==> id in SessionsIn(v.sessions, st)
    ensures Lists(v, Pick(SessionsIn(v.sessions, st), ids, late, now), {st}, {late}, now)
  {
    hide TimedOut;
    var entries := SessionsIn(v.sessions, st);
    var xs := Pick(entries, ids, late, now);
    PickDistinct(entries, ids, late, now);
    forall i | 0 <= i < |xs|
      ensures xs[i].uid in v.sessions && v.sessions[xs[i].uid].session == xs[i]
              && v.sessions[xs[i].uid].state == st && TimedOut(xs[i], now) == late
    {
      PickHas(entries, ids, late, now, xs[i]);
    }
    forall id | id in v.sessions && v.sessions[id].state == st && TimedOut(v.sessions[id].session, now) == late
      ensures v.sessions[id].session in xs
    {
      assert id in ids;
      PickHas(entries, ids, late, now, v.sessions[id].session);
    }
  }

  lemma NoneStarting(v: View)
    requires Inv(v)
    ensures SessionsIn(v.sessions, SessionStarting) == map[]
  {
    assert forall id :: id in v.sessions ==> FiledRight(id, v.sessions[id]);
  }

  class Pool {
    var podsByState: PodMaps
    var sessions: SessionMaps
    ghost var repr: set<ApplicationPod>
    ghost var objs: map<string, ApplicationPod>
    ghost var view: View

    constructor ()
      ensures Valid() && view == View(map[], map[]) && repr == {}
    {
      podsByState := map[PodPending := map[], PodIdle := map[], PodAllocated := map[], PodDeleting := map[]];
      sessions := map[SessionPending := map[], SessionStarting := map[], SessionRunning := map[],
                      SessionDeleting := map[]];
      repr, objs, view := {}, map[], View(map[], map[]);
      new;
      forall st: PodState
        ensures st in podsByState && podsByState[st] == PodsIn(map[], map[], st)
      {
        match st case PodPending => case PodAllocated => case PodDeleting => case PodIdle =>
      }
      forall st: SessionState
        ensures st in sessions && sessions[st] == SessionsIn(map[], st)
      {
        match st case SessionPending => case SessionStarting => case SessionRunning => case SessionDeleting =>
      }
    }

    ghost predicate PodsValid()
      reads this, repr
    {
      && PodsFiled(podsByState, objs, view.pods)
      && (forall n :: n in objs ==>
            && objs[n] in repr && objs[n].podName == n
            && view.pods[n] == PodView(objs[n].state, objs[n].sessions))
    }

    ghost predicate Valid()
      reads this, repr
    {
      PodsValid() && SessionsFiled(sessions, view.sessions)
    }

    /** Looks through the state maps, in whatever order they are ranged over. */
    method GetPod(podName: string) returns (pod: ApplicationPod?)
      requires Valid()
      ensures pod == null <==> podName !in view.pods
      ensures pod != null ==> podName in objs && pod == objs[podName]
    {
      if podName in view.pods { WhereFiled(podName); }
      var todo := podsByState.Keys;
      while todo != {}
        invariant todo <= podsByState.Keys
        invariant forall st :: st in podsByState && st !in todo ==> podName !in podsByState[st]
        decreases |todo|
      {
        var st :| st in todo;
        if podName in podsByState[st] {
          return podsByState[st][podName];
        }
        todo := todo - {st};
      }
      return null;
    }

    method MovePod(pod: ApplicationPod, podState: PodState, sessionIds: set<string>)
      requires Valid() && pod.podName in objs && objs[pod.podName] == pod
      modifies this`podsByState, this`view, pod
      ensures Valid() && view == PutPod(old(view), pod.podName, podState, sessionIds)
    {
      hide PodsFiled, SessionsFiled;
      Shapes();
      var podName, from := pod.podName, pod.state;
      view := PutPod(view, podName, podState, sessionIds);
      MoveFiles(podsByState, objs, old(view).pods, podName, view.pods[podName]);
      pod.sessions := pod.sessions + sessionIds;
      if from != podState {
        pod.state := podState;
        podsByState := podsByState[podState := podsByState[podState][podName := pod]];
        podsByState := podsByState[from := podsByState[from] - {podName}];
      }
    }

    /** Finds the pod in a state map, moves it to another and binds sessions to it; adds it when it is in none. */
    method PutPodNoLock(podName: string, podState: PodState, sessionIds: set<string>)
      requires Valid()
      modifies this`podsByState, this`repr, this`objs, this`view, repr
      ensures Valid() && fresh(repr - old(repr))
      ensures view == PutPod(old(view), podName, podState, sessionIds)
    {
      hide PodsFiled, SessionsFiled;
      Shapes();
      var pod := GetPod(podName);
      if pod != null {
        MovePod(pod, podState, sessionIds);
      } else {
        pod := new ApplicationPod(podName, podState);
        pod.sessions := pod.sessions + sessionIds;
        AddPod(pod);
      }
    }

    method AddPod(pod: ApplicationPod)
      requires Valid() && pod.podName !in view.pods
      modifies this`podsByState, this`repr, this`objs, this`view
      ensures Valid() && repr == old(repr) + {pod}
      ensures view == old(view).(pods := old(view).pods[pod.podName := PodView(pod.state, pod.sessions)])
    {
      hide PodsFiled, SessionsFiled;
      Shapes();
      AddFiles(podsByState, objs, view.pods, pod.podName, pod, PodView(pod.state, pod.sessions));
      podsByState := podsByState[pod.state := podsByState[pod.state][pod.podName := pod]];
      repr := repr + {pod};
      objs := objs[pod.podName := pod];
      view := view.(pods := view.pods[pod.podName := PodView(pod.state, pod.sessions)]);
    }

    lemma StateOf(n: string)
      requires Valid() && n in view.pods
      ensures n in objs && objs[n] in repr && view.pods[n] == PodView(objs[n].state, objs[n].sessions)
    {
    }

    lemma WhereFiled(n: string)
      requires Valid() && n in view.pods
      ensures view.pods[n].state in podsByState && n in podsByState[view.pods[n].state]
    {
    }

    lemma Shapes()
      requires Valid()
      ensures objs.Keys == view.pods.Keys
      ensures forall st: PodState :: st in podsByState
      ensures forall st: SessionState :: st in sessions
    {
    }

    method AddOrUpdatePod(podName: string, podState: PodState, sessionIds: set<string>)
      requires Valid()
      modifies this`podsByState, this`repr, this`objs, this`view, repr
      ensures Valid() && fresh(repr - old(repr))
      ensures view == PoolView.AddOrUpdatePod(old(view), podName, podState, sessionIds)
    {
      hide PodsFiled, SessionsFiled;
      var pod := GetPod(podName);
      if pod != null {
        if pod.state == PodDeleting && podState != PodDeleting {
          return;
        }
        if pod.state != PodPending && podState == PodPending {
          return;
        }
      }
      PutPodNoLock(podName, podState, sessionIds);
    }

    method DropFromPodMaps(podName: string)
      requires forall st: PodState :: st in podsByState
      modifies this`podsByState
      ensures Dropped(old(podsByState), podsByState, podName, {})
    {
      hide Dropped;
      NothingDropped(podsByState, podName);
      var todo := podsByState.Keys;
      while todo != {}
        invariant Dropped(old(podsByState), podsByState, podName, todo)
        decreases |todo|
      {
        var st :| st in todo;
        DropStep(old(podsByState), podsByState, podName, todo, st);
        InMaps(old(podsByState), podsByState, podName, todo, st);
        podsByState := podsByState[st := podsByState[st] - {podName}];
        todo := todo - {st};
      }
    }

    method DeletePod(podName: string)
      requires Valid()
      modifies this`podsByState, this`objs, this`view
      ensures Valid() && view == PoolView.DeletePod(old(view), podName)
    {
      hide PodsFiled, SessionsFiled, Dropped;
      Shapes();
      DropFromPodMaps(podName);
      RemoveFiles(old(podsByState), podsByState, objs, view.pods, podName);
      objs := objs - {podName};
      view := PoolView.DeletePod(view, podName);
    }

    method DropSession(pod: ApplicationPod, sessionId: string)
      requires Valid() && pod.podName in objs && objs[pod.podName] == pod
      modifies this`view, pod`sessions
      ensures Valid()
      ensures view.pods == old(view).pods[pod.podName := PodView(pod.state, old(pod.sessions) - {sessionId})]
      ensures view.sessions == old(view).sessions
    {
      hide PodsFiled, SessionsFiled;
      Shapes();
      view := view.(pods := view.pods[pod.podName := PodView(pod.state, pod.sessions - {sessionId})]);
      MoveFiles(podsByState, objs, old(view).pods, pod.podName, view.pods[pod.podName]);
      pod.sessions := pod.sessions - {sessionId};
    }

    /** Takes a session off its pod; an allocated pod left without sessions becomes idle, in the same step. */
    method UnbindSession(podName: string, sessionId: string)
      requires Valid()
      modifies this`podsByState, this`view, repr
      ensures Valid()
      ensures view == if podName in old(view).pods
                      then old(view).(pods := old(view).pods[podName := Unbind(old(view).pods[podName], sessionId)])
                      else old(view)
    {
      hide PodsFiled, SessionsFiled;
      var pod := GetPod(podName);
      if pod == null { return; }
      DropSession(pod, sessionId);
      if |pod.sessions| == 0 && pod.state == PodAllocated {
        assert pod.sessions == {} && {} + {} == pod.sessions;
        MovePod(pod, PodIdle, {});
      }
    }

    method RemoveSession(id: string)
      requires Valid()
      modifies this`sessions, this`view
      ensures Valid() && view == old(view).(sessions := old(view).sessions - {id})
    {
      hide PodsFiled, SessionsFiled, Dropped;
      Shapes();
      NothingDropped(sessions, id);
      var todo := sessions.Keys;
      while todo != {}
        invariant view == old(view)
        invariant Dropped(old(sessions), sessions, id, todo)
        decreases |todo|
      {
        var st :| st in todo;
        DropStep(old(sessions), sessions, id, todo, st);
        InMaps(old(sessions), sessions, id, todo, st);
        sessions := sessions[st := sessions[st] - {id}];
        todo := todo - {st};
      }
      SessionRemoved(old(sessions), sessions, view.sessions, id);
      view := view.(sessions := view.sessions - {id});
    }

    method DeleteSession(session: Session)
      requires Valid()
      modifies this`podsByState, this`sessions, this`view, repr
      ensures Valid() && view == PoolView.DeleteSession(old(view), session)
    {
      hide PodsFiled, SessionsFiled;
      if session.podRef.Some? {
        UnbindSession(session.podRef.value, session.uid);
      }
      RemoveSession(session.uid);
    }

    /** Looks through the session maps, in whatever order they are ranged over. */
    method GetSession(id: string) returns (entry: Option<SessionEntry>)
      requires Valid()
      ensures entry == if id in view.sessions then Some(view.sessions[id]) else None
    {
      hide PodsFiled;
      Shapes();
      if id in view.sessions { assert id in sessions[view.sessions[id].state]; }
      var todo := sessions.Keys;
      while todo != {}
        invariant forall st :: st !in todo ==> id !in sessions[st]
        decreases |todo|
      {
        var st :| st in todo;
        if id in sessions[st] {
          return Some(sessions[st][id]);
        }
        todo := todo - {st};
      }
      return None;
    }

    method FileSession(session: Session, newState: SessionState)
      requires Valid()
      modifies this`sessions, this`view
      ensures Valid() && view.pods == old(view).pods
      ensures view.sessions == old(view).sessions[session.uid := SessionEntry(session, newState)]
    {
      hide PodsFiled, SessionsFiled;
      Shapes();
      var present := GetSession(session.uid);
      SessionFiles(sessions, view.sessions, SessionEntry(session, newState));
      if present.Some? && newState != present.value.state {
        sessions := sessions[present.value.state := sessions[present.value.state] - {session.uid}];
      }
      sessions := sessions[newState := sessions[newState][session.uid := SessionEntry(session, newState)]];
      view := view.(sessions := view.sessions[session.uid := SessionEntry(session, newState)]);
    }

    method AddSession(session: Session)
      requires Valid()
      modifies this`podsByState, this`sessions, this`repr, this`objs, this`view, repr
      ensures Valid() && fresh(repr - old(repr))
      ensures view == PoolView.AddSession(old(view), session)
    {
      hide PodsFiled, SessionsFiled;
      var newState := session.PoolState();
      if newState.None? {
        DeleteSession(session);
        return;
      }
      FileSession(session, newState.value);
      if session.podRef.Some? {
        PutPodNoLock(session.podRef.value, PodAllocated, {session.uid});
      }
    }

    method UpdateSessionPool(session: Session, now: int)
      requires Valid()
      modifies this`podsByState, this`sessions, this`repr, this`objs, this`view, repr
      ensures Valid() && fresh(repr - old(repr))
      ensures view == PoolView.UpdateSessionPool(old(view), session, now)
    {
      hide PodsFiled, SessionsFiled;
      if session.IsTerminal() {
        DeleteSession(session);
      } else {
        AddSession(session.(created := now));
      }
    }

    method TouchSession(id: string, status: SessionStatus)
      requires Valid() && Inv(view)
      modifies this`sessions, this`view
      ensures Valid() && view == Touch(old(view), id, status)
    {
      hide PodsFiled, SessionsFiled;
      var entry := GetSession(id);
      if entry.Some? {
        FileSession(entry.value.session.(status := status), entry.value.state);
      }
    }

    // Reading the pool.

    lemma SessionMap(st: SessionState)
      requires Valid()
      ensures st in sessions && sessions[st] == SessionsIn(view.sessions, st)
    {
    }

    method PodListOfState(st: PodState) returns (names: seq<string>)
      requires Valid()
      ensures NoDuplicates(names) && |names| == |InState(view, st)|
      ensures forall n :: n in names <==> n in view.pods && view.pods[n].state == st
    {
      names := Range(podsByState[st]);
      assert podsByState[st].Keys == InState(view, st);
    }

    method GetSomeIdlePods(num: nat) returns (names: seq<string>)
      requires Valid()
      ensures NoDuplicates(names) && |names| <= num
      ensures forall n :: n in names ==> n in view.pods && view.pods[n].state.PodIdle?
      ensures |names| < num ==> forall n :: n in view.pods && view.pods[n].state.PodIdle? ==> n in names
    {
      var all := PodListOfState(PodIdle);
      names := if |all| <= num then all else all[..num];
    }

    method ActivePodNums() returns (occupied: nat, pending: nat, idle: nat)
      requires Valid()
      ensures occupied == |InState(view, PodAllocated)| && pending == |InState(view, PodPending)|
              && idle == |InState(view, PodIdle)|
    {
      occupied, pending, idle := |podsByState[PodAllocated]|, |podsByState[PodPending]|, |podsByState[PodIdle]|;
      assert podsByState[PodAllocated].Keys == InState(view, PodAllocated);
      assert podsByState[PodPending].Keys == InState(view, PodPending);
      assert podsByState[PodIdle].Keys == InState(view, PodIdle);
    }

    /** The filed sessions among those bound to a pod. */
    method GetPodSessions(podName: string) returns (list: seq<Session>)
      requires Valid()
      ensures podName !in view.pods ==> list == []
      ensures podName in view.pods ==> forall id :: id in view.pods[podName].sessions && id in view.sessions ==>
                                                      view.sessions[id].session in list
      ensures podName in view.pods ==> forall s :: s in list ==>
                exists id :: id in view.pods[podName].sessions && id in view.sessions && view.sessions[id].session == s
    {
      hide PodsFiled, SessionsFiled;
      list := [];
      var pod := GetPod(podName);
      if pod == null { return; }
      StateOf(podName);
      var todo := pod.sessions;
      while todo != {}
        invariant todo <= pod.sessions
        invariant forall id :: id in pod.sessions && id !in todo && id in view.sessions ==>
                    view.sessions[id].session in list
        invariant forall s :: s in list ==>
                    exists id :: id in pod.sessions && id in view.sessions && view.sessions[id].session == s
        decreases |todo|
      {
        var k :| k in todo;
        var s := GetSession(k);
        if s.Some? {
          list := list + [s.value.session];
        }
        todo := todo - {k};
      }
    }

    /** The sessions of one state, split into those still in time and those timed out. */
    method SplitByTimeout(st: SessionState, now: int) returns (inTime: seq<Session>, late: seq<Session>)
      requires Valid() && Inv(view)
      ensures Lists(view, inTime, {st}, {false}, now) && Lists(view, late, {st}, {true}, now)
      ensures st.SessionStarting? ==> inTime == [] && late == []
    {
      hide PodsFiled, SessionsFiled, Lists, TimedOut, Inv;
      SessionMap(st);
      NoneStarting(view);
      var entries := sessions[st];
      var ids := Range(entries);
      inTime, late := [], [];
      for i := 0 to |ids|
        invariant inTime == Pick(entries, ids[..i], false, now) && late == Pick(entries, ids[..i], true, now)
      {
        var s := entries[ids[i]].session;
        assert ids[..i + 1][..i] == ids[..i];
        if TimedOut(s, now) {
          late := late + [s];
        } else {
          inTime := inTime + [s];
        }
      }
      assert ids[..|ids|] == ids;
      PickLists(view, st, ids, false, now);
      PickLists(view, st, ids, true, now);
    }

    /** All sessions, state by state. */
    method SessionList() returns (list: seq<Session>)
      requires Valid()
      ensures list == [] <==> view.sessions == map[]
      ensures forall id :: id in view.sessions ==> view.sessions[id].session in list
      ensures forall s :: s in list ==> exists id :: id in view.sessions && view.sessions[id].session == s
    {
      hide SessionsFiled, PodsFiled;
      list := [];
      Shapes();
      var todo := sessions.Keys;
      while todo != {}
        invariant forall id :: id in view.sessions && view.sessions[id].state !in todo ==>
                    view.sessions[id].session in list
        invariant forall s :: s in list ==> exists id :: id in view.sessions && view.sessions[id].session == s
        decreases |todo|
      {
        var st :| st in todo;
        SessionMap(st);
        var some := SessionsOf(st);
        list := list + some;
        todo := todo - {st};
      }
      if list == [] {
        assert forall id :: id in view.sessions ==> view.sessions[id].session in list;
      } else {
        assert list[0] in list;
      }
    }

    method SessionsOf(st: SessionState) returns (list: seq<Session>)
      requires Valid()
      ensures forall id :: id in view.sessions && view.sessions[id].state == st ==> view.sessions[id].session in list
      ensures forall s :: s in list ==> exists id :: id in view.sessions && view.sessions[id].session == s
    {
      SessionMap(st);
      var entries := sessions[st];
      var ids := Range(entries);
      list := [];
      for i := 0 to |ids|
        invariant forall k :: 0 <= k < i ==> entries[ids[k]].session in list
        invariant forall s :: s in list ==> exists id :: id in view.sessions && view.sessions[id].session == s
      {
        assert ids[i] in ids && ids[i] in entries;
        list := list + [entries[ids[i]].session];
      }
      forall id | id in view.sessions && view.sessions[id].state == st
        ensures view.sessions[id].session in list
      {
        assert id in entries && id in ids;
      }
    }

    /** All pods, state by state, once each. */
    method PodList() returns (names: seq<string>)
      requires Valid()
      ensures NoDuplicates(names) && forall n :: n in names <==> n in view.pods
    {
      names := [];
      Shapes();
      var todo := podsByState.Keys;
      while todo != {}
        invariant NoDuplicates(names) && forall n :: n in names <==> n in view.pods && view.pods[n].state !in todo
        decreases |todo|
      {
        hide Valid;
        var st :| st in todo;
        var some := PodListOfState(st);
        BothDistinct(names, some);
        names := names + some;
        todo := todo - {st};
      }
    }

    /** The total of the summary is the number of distinct pods. */
    method SummaryPodTotal() returns (total: nat)
      requires Valid()
      ensures total == |view.pods|
    {
      var occupied, pending, idle := ActivePodNums();
      assert podsByState[PodDeleting].Keys == InState(view, PodDeleting);
      CountsAddUp(view);
      total := pending + |podsByState[PodDeleting]| + idle + occupied;
    }
  }
}
