/**
  The core's pod cache and the stream of pod events it sends to its watchers.
 */
module PodManager {
  import opened Common

  datatype Phase = Pending | Running | Succeeded | Failed | Unknown

  /** `version` is the number its resource version reads as, 0 if it is none. */
  datatype Pod = Pod(name: string, version: int, phase: Phase, deletion: Option<int>, grace: Option<int>)

  /** A cached pod and the node that runs it, "" for none. */
  datatype Held = Held(pod: Pod, nodeId: string)

  type Cache = map<string, Held>

  datatype Kind = Create | Update | Delete | Terminate

  datatype Event = Event(nodeId: string, pod: Pod, kind: Kind)

  datatype Error = Ok | PodNotFound | PodNotTerminatedYet | RpcFailed

  const DEFAULT_GRACE_SECONDS := 30

  predicate Terminated(pod: Pod) { pod.phase.Succeeded? || pod.phase.Failed? }

  function OrElse<T>(a: Option<T>, b: Option<T>): Option<T> { if a.Some? then a else b }

  /** A pod whose deletion is asked for; an earlier time and grace period stay. */
  function Deleting(pod: Pod, now: int): Pod {
    pod.(deletion := OrElse(pod.deletion, Some(now)), grace := OrElse(pod.grace, Some(DEFAULT_GRACE_SECONDS)))
  }

  /** What a report changes of a cached pod: a deletion once asked for stays. */
  function Merge(from: Pod, to: Pod, now: int): Pod {
    Pod(to.name, from.version, from.phase,
        OrElse(OrElse(to.deletion, from.deletion), if Terminated(from) then Some(now) else None),
        OrElse(to.grace, from.grace))
  }

  // ---------- What watchers see ----------

  /** What a watcher knows of a pod. */
  datatype Seen = Seen(nodeId: string, version: int)

  function See(seen: map<string, Seen>, e: Event): map<string, Seen> {
    if e.kind.Create? || e.kind.Update? then seen[e.pod.name := Seen(e.nodeId, e.pod.version)]
    else seen - {e.pod.name}
  }

  /** A watcher's knowledge after a stream of events. */
  function Fold(events: seq<Event>): map<string, Seen>
    decreases |events|
  {
    if events == [] then map[] else See(Fold(events[..|events| - 1]), events[|events| - 1])
  }

  /** An event that makes sense to a watcher who saw `seen`. */
  predicate Fits(seen: map<string, Seen>, e: Event) {
    match e.kind
    case Create => e.pod.name !in seen
    case Update => e.pod.name in seen && seen[e.pod.name].version < e.pod.version
    case Delete => e.pod.name in seen
    case Terminate => e.pod.name in seen
  }

  /** Creation before update, update before removal, and versions that rise from creation to removal. */
  predicate WellLogged(events: seq<Event>)
    decreases |events|
  {
    events == [] || (WellLogged(events[..|events| - 1]) && Fits(Fold(events[..|events| - 1]), events[|events| - 1]))
  }

  ghost function Summary(c: Cache): map<string, Seen> {
    map n | n in c :: Seen(c[n].nodeId, c[n].pod.version)
  }

  lemma Emitted(events: seq<Event>, e: Event)
    ensures Fold(events + [e]) == See(Fold(events), e)
    ensures WellLogged(events + [e]) <==> WellLogged(events) && Fits(Fold(events), e)
  {
    assert (events + [e])[..|events|] == events;
  }

  predicate Sets(e: Event, name: string) { e.pod.name == name && (e.kind.Create? || e.kind.Update?) }

  predicate Removes(e: Event, name: string) { e.pod.name == name && (e.kind.Delete? || e.kind.Terminate?) }

  /** After an event that sets a name, and until it is removed, a watcher knows it at that version or a later one. */
  lemma {:induction false} KnownSince(events: seq<Event>, i: nat, name: string)
    requires WellLogged(events) && i < |events| && Sets(events[i], name)
    requires forall k :: i < k < |events| ==> !Removes(events[k], name)
    ensures name in Fold(events) && events[i].pod.version <= Fold(events)[name].version
    decreases |events|
  {
    var rest := events[..|events| - 1];
    if i < |rest| {
      KnownSince(rest, i, name);
    }
  }

  lemma {:induction false} PrefixLogged(events: seq<Event>, j: nat)
    requires WellLogged(events) && j <= |events|
    ensures WellLogged(events[..j])
    decreases |events|
  {
    if j == |events| {
      assert events[..j] == events;
    } else {
      PrefixLogged(events[..|events| - 1], j);
      assert events[..|events| - 1][..j] == events[..j];
    }
  }

  /** Two updates of a pod with no removal between them carry rising versions. */
  lemma VersionsRise(events: seq<Event>, i: nat, j: nat, name: string)
    requires WellLogged(events) && i < j < |events| && Sets(events[i], name) && Sets(events[j], name)
    requires forall k :: i < k < j ==> !Removes(events[k], name)
    ensures events[j].kind.Update? && events[i].pod.version < events[j].pod.version
  {
    PrefixLogged(events, j + 1);
    PrefixLogged(events, j);
    assert events[..j + 1][..j] == events[..j];
    KnownSince(events[..j], i, name);
  }

  // ---------- Changes to the cache ----------

  /** The node is told again to terminate a pod that was asked to be deleted. */
  predicate AsksAgain(c: Cache, nodeId: string, pod: Pod) {
    nodeId != "" && pod.name in c && c[pod.name].pod.deletion.Some? && !Terminated(pod)
  }

  predicate Newer(c: Cache, pod: Pod) { pod.name in c && pod.version > c[pod.name].pod.version }

  /** The call fails: the update is dropped. */
  predicate Dropped(c: Cache, nodeId: string, pod: Pod, rpc: bool) {
    Newer(c, pod) && AsksAgain(c, nodeId, pod) && !rpc
  }

  function Upsert(c: Cache, nodeId: string, pod: Pod, rpc: bool, now: int): Cache {
    if pod.name !in c then
      if Terminated(pod) then c else c[pod.name := Held(pod, nodeId)]
    else if !Newer(c, pod) || Dropped(c, nodeId, pod, rpc) then c
    else if Terminated(pod) then c - {pod.name}
    else c[pod.name := Held(Merge(pod, c[pod.name].pod, now), nodeId)]
  }

  /** The event that tells watchers of it, if there is one. */
  function Sends(c: Cache, nodeId: string, pod: Pod, rpc: bool, now: int): seq<Event> {
    if pod.name !in c then
      if Terminated(pod) then [] else [Event(nodeId, pod, Create)]
    else if !Newer(c, pod) || Dropped(c, nodeId, pod, rpc) then []
    else [Event(nodeId, Merge(pod, c[pod.name].pod, now), if Terminated(pod) then Terminate else Update)]
  }

  /** A pod no node has leaves the cache, unless it runs; any other is marked. */
  function MarkIn(c: Cache, name: string, now: int): Cache {
    if name !in c then c
    else if c[name].nodeId == "" && !c[name].pod.phase.Running? then c - {name}
    else c[name := Held(Deleting(c[name].pod, now), c[name].nodeId)]
  }

  function DropIn(c: Cache, name: string): Cache {
    if name in c && !c[name].pod.phase.Running? then c - {name} else c
  }

  // ---------- Runs of calls ----------

  /** A report of a pod, from a node or, with the node "", from an application; a request to end a pod; a removal. */
  datatype CacheOp =
    | Upserting(nodeId: string, pod: Pod, rpc: bool, now: int)
    | Terminating(name: string, now: int)
    | Removing(name: string)

  function Apply(c: Cache, op: CacheOp): Cache {
    match op
    case Upserting(nodeId, pod, rpc, now) => Upsert(c, nodeId, pod, rpc, now)
    case Terminating(name, now) => MarkIn(c, name, now)
    case Removing(name) => DropIn(c, name)
  }

  function ApplyAll(c: Cache, ops: seq<CacheOp>): Cache
    decreases |ops|
  {
    if ops == [] then c else Apply(ApplyAll(c, ops[..|ops| - 1]), ops[|ops| - 1])
  }

  /** The pod is cached after every part of the run. */
  ghost predicate CachedAlong(c: Cache, ops: seq<CacheOp>, name: string)
    decreases |ops|
  {
    name in ApplyAll(c, ops) && (ops == [] || CachedAlong(c, ops[..|ops| - 1], name))
  }

  /** Whatever is reported or asked for: a pod marked for deletion keeps its time until it leaves the cache. */
  lemma {:induction false} MarkStays(c: Cache, ops: seq<CacheOp>, name: string)
    requires CachedAlong(c, ops, name) && name in c && c[name].pod.deletion.Some?
    ensures ApplyAll(c, ops)[name].pod.deletion == c[name].pod.deletion
    ensures c[name].pod.grace.Some? ==> ApplyAll(c, ops)[name].pod.grace == c[name].pod.grace
    ensures c[name].pod.version <= ApplyAll(c, ops)[name].pod.version
    decreases |ops|
  {
    if ops != [] {
      MarkStays(c, ops[..|ops| - 1], name);
    }
  }

  /**
    Once a pod was asked to end and is still cached, every newer report of it from a node that does not say it
    terminated asks the node again, and it is cached with the new state only if the node takes the call.
   */
  lemma AskedUntilGone(c: Cache, ops: seq<CacheOp>, name: string, now: int, nodeId: string, pod: Pod, rpc: bool,
      later: int)
    requires name in MarkIn(c, name, now) && CachedAlong(MarkIn(c, name, now), ops, name)
    requires pod.name == name && nodeId != "" && !Terminated(pod)
    ensures var w := ApplyAll(MarkIn(c, name, now), ops);
            pod.version > w[name].pod.version ==>
              && AsksAgain(w, nodeId, pod)
              && Upsert(w, nodeId, pod, rpc, later)[name] ==
                 if rpc then Held(w[name].pod.(version := pod.version, phase := pod.phase), nodeId) else w[name]
  {
    hide ApplyAll, CachedAlong;
    CachedAtStart(MarkIn(c, name, now), ops, name);
    MarkStays(MarkIn(c, name, now), ops, name);
  }

  lemma {:induction false} CachedAtStart(c: Cache, ops: seq<CacheOp>, name: string)
    requires CachedAlong(c, ops, name)
    ensures name in c && name in ApplyAll(c, ops)
    decreases |ops|
  {
    if ops != [] {
      CachedAtStart(c, ops[..|ops| - 1], name);
    }
  }

  // ---------- What the scheduler is asked for ----------

  datatype QueueCall = Enqueue(pod: Pod) | Dequeue(name: string)

  function Asked(queued: set<string>, c: QueueCall): set<string> {
    match c case Enqueue(pod) => queued + {pod.name} case Dequeue(name) => queued - {name}
  }

  /** The pods that wait to be scheduled, as far as the pod manager's calls decide. */
  function Queued(calls: seq<QueueCall>): set<string>
    decreases |calls|
  {
    if calls == [] then {} else Asked(Queued(calls[..|calls| - 1]), calls[|calls| - 1])
  }

  lemma CallAdded(calls: seq<QueueCall>, c: QueueCall)
    ensures Queued(calls + [c]) == Asked(Queued(calls), c)
  {
    assert (calls + [c])[..|calls|] == calls;
  }

  /** A pending pod of no node, new or updated, is to be scheduled. */
  predicate ToSchedule(c: Cache, nodeId: string, pod: Pod) {
    nodeId == "" && pod.phase.Pending? && (pod.name !in c || Newer(c, pod))
  }

  datatype TerminateCall = TerminateCall(nodeId: string, name: string)

  /** A pod cached after a newer report has the state of the report, and keeps a deletion asked for before. */
  predicate Carried(was: Pod, report: Pod, is_: Pod) {
    && is_.name == report.name && is_.version == report.version && is_.phase == report.phase
    && (was.deletion.Some? ==> is_.deletion == was.deletion)
    && (was.deletion.None? ==> is_.deletion == report.deletion)
    && (was.grace.Some? ==> is_.grace == was.grace)
    && (was.grace.None? ==> is_.grace == report.grace)
  }

  /** The event of a report: its state, at its node, with the deletion asked for; an ended pod has a time of it. */
  predicate Tells(c: Cache, nodeId: string, pod: Pod, e: Event) {
    && e.nodeId == nodeId && e.pod.name == pod.name && e.pod.version == pod.version && e.pod.phase == pod.phase
    && (e.kind.Create? <==> pod.name !in c) && (e.kind.Terminate? <==> pod.name in c && Terminated(pod))
    && (e.kind.Update? <==> pod.name in c && !Terminated(pod))
    && (pod.name in c && c[pod.name].pod.deletion.Some? ==> e.pod.deletion == c[pod.name].pod.deletion)
    && (e.kind.Terminate? ==> e.pod.deletion.Some?)
  }

  lemma UpsertCarries(c: Cache, nodeId: string, pod: Pod, rpc: bool, now: int)
    requires forall n :: n in c ==> c[n].pod.name == n
    ensures var d := Upsert(c, nodeId, pod, rpc, now);
            && (pod.name in c ==>
                  var m := Merge(pod, c[pod.name].pod, now);
                  m.name == pod.name && m.version == pod.version && m.phase == pod.phase
                  && (!Terminated(pod) ==> Carried(c[pod.name].pod, pod, m)))
            && var sent := Sends(c, nodeId, pod, rpc, now);
            |sent| <= 1 && (sent != [] ==> Tells(c, nodeId, pod, sent[0]))
  {
  }

  class PodManager {
    var pods: Cache
    var podUpdates: seq<Event>
    var queueCalls: seq<QueueCall>
    /** The calls to nodes to terminate a pod. */
    var nodeCalls: seq<TerminateCall>

    constructor ()
      ensures Valid() && pods == map[] && podUpdates == [] && queueCalls == [] && nodeCalls == []
    {
      pods, podUpdates, queueCalls, nodeCalls := map[], [], [], [];
    }

    method Call(c: QueueCall)
      requires Valid()
      modifies this`queueCalls
      ensures Valid() && queueCalls == old(queueCalls) + [c]
      ensures Queued(queueCalls) == Asked(Queued(old(queueCalls)), c)
    {
      CallAdded(queueCalls, c);
      queueCalls := queueCalls + [c];
    }

    /** A watcher who saw every event knows every cached pod, its node and its version. */
    ghost predicate Valid()
      reads this
    {
      && (forall n :: n in pods ==> pods[n].pod.name == n)
      && WellLogged(podUpdates) && Fold(podUpdates) == Summary(pods)
    }

    method FindPod(name: string) returns (pod: Option<Pod>)
      requires Valid()
      ensures pod == if name in pods then Some(pods[name].pod) else None
    {
      return if name in pods then Some(pods[name].pod) else None;
    }

    /** Watchers keep up with the cache unless the new pod is terminated already, which callers rule out. */
    method CreatePodAndSendEvent(nodeId: string, pod: Pod)
      requires Valid() && pod.name !in pods
      modifies this`pods, this`podUpdates
      ensures pods == old(pods)[pod.name := Held(pod, nodeId)]
      ensures podUpdates == old(podUpdates) + [Event(nodeId, pod, if Terminated(pod) then Terminate else Create)]
      ensures Valid() <==> !Terminated(pod)
    {
      hide Fold, WellLogged;
      var kind := if Terminated(pod) then Terminate else Create;
      Emitted(podUpdates, Event(nodeId, pod, kind));
      pods := pods[pod.name := Held(pod, nodeId)];
      podUpdates := podUpdates + [Event(nodeId, pod, kind)];
      assert Summary(pods) == Summary(old(pods))[pod.name := Seen(nodeId, pod.version)];
    }

    /** A newer state of a cached pod takes its place; a terminated pod leaves the cache. */
    method UpdatePodAndSendEvent(nodeId: string, pod: Pod)
      requires Valid() && pod.name in pods && pod.version > pods[pod.name].pod.version
      modifies this`pods, this`podUpdates
      ensures Valid()
      ensures pods == if Terminated(pod) then old(pods) - {pod.name} else old(pods)[pod.name := Held(pod, nodeId)]
      ensures podUpdates == old(podUpdates) + [Event(nodeId, pod, if Terminated(pod) then Terminate else Update)]
    {
      hide Fold, WellLogged;
      var kind := if Terminated(pod) then Terminate else Update;
      Emitted(podUpdates, Event(nodeId, pod, kind));
      podUpdates := podUpdates + [Event(nodeId, pod, kind)];
      if Terminated(pod) {
        pods := pods - {pod.name};
        assert Summary(pods) == Summary(old(pods)) - {pod.name};
      } else {
        pods := pods[pod.name := Held(pod, nodeId)];
        assert Summary(pods) == Summary(old(pods))[pod.name := Seen(nodeId, pod.version)];
      }
    }

    /** `rpc` is whether the node takes a call to terminate the pod. */
    method AddOrUpdatePod(nodeId: string, pod: Pod, rpc: bool, now: int) returns (err: Error)
      requires Valid()
      modifies this
      ensures Valid() && podUpdates == old(podUpdates) + Sends(old(pods), nodeId, pod, rpc, now)
      ensures pods == Upsert(old(pods), nodeId, pod, rpc, now)
      ensures Queued(queueCalls) ==
              Queued(old(queueCalls)) + if ToSchedule(old(pods), nodeId, pod) then {pod.name} else {}
      ensures err == if Dropped(old(pods), nodeId, pod, rpc) then RpcFailed else Ok
      ensures forall n :: n != pod.name ==> (n in pods <==> n in old(pods)) && (n in pods ==> pods[n] == old(pods)[n])
      ensures pod.name !in old(pods) ==>
                && (pod.name in pods <==> pod.phase in {Pending, Running, Unknown})
                && (pod.name in pods ==> pods[pod.name] == Held(pod, nodeId))
      ensures pod.name in old(pods) && pod.version > old(pods)[pod.name].pod.version && err == Ok ==>
                && (pod.name in pods <==> pod.phase in {Pending, Running, Unknown})
                && (pod.name in pods ==>
                      pods[pod.name].nodeId == nodeId && Carried(old(pods)[pod.name].pod, pod, pods[pod.name].pod))
      ensures pod.name in old(pods) && (pod.version <= old(pods)[pod.name].pod.version || err != Ok) ==>
                pod.name in pods && pods[pod.name] == old(pods)[pod.name]
      ensures nodeId == "" && pod.phase.Pending?
              && (pod.name !in old(pods) || pod.version > old(pods)[pod.name].pod.version) ==>
                pod.name in Queued(queueCalls)
      ensures podUpdates != old(podUpdates) ==> Tells(old(pods), nodeId, pod, podUpdates[|podUpdates| - 1])
      ensures nodeCalls == old(nodeCalls) +
              if pod.name in old(pods) && pod.version > old(pods)[pod.name].pod.version && nodeId != ""
                 && old(pods)[pod.name].pod.deletion.Some? && !Terminated(pod)
              then [TerminateCall(nodeId, pod.name)] else []
    {
      hide Fold, WellLogged, Queued, Merge, Carried, Summary, Tells;
      UpsertCarries(pods, nodeId, pod, rpc, now);
      var cached := FindPod(pod.name);
      if cached == None {
        if !Terminated(pod) {
          CreatePodAndSendEvent(nodeId, pod);
        }
        if nodeId == "" && pod.phase.Pending? {
          Call(Enqueue(pod));
        }
        return Ok;
      } else {
        if !(pod.version > cached.value.version) {
          return Ok;
        }
        if nodeId != "" && cached.value.deletion.Some? && !Terminated(pod) {
          nodeCalls := nodeCalls + [TerminateCall(nodeId, pod.name)];
          if !rpc {
            return RpcFailed;
          }
        }
        var merged := Merge(pod, cached.value, now);
        UpdatePodAndSendEvent(nodeId, merged);
        if nodeId == "" && merged.phase.Pending? {
          Call(Enqueue(merged));
        }
        return Ok;
      }
    }

    method DeletePod(nodeId: string, pod: Pod, now: int) returns (err: Error)
      requires Valid()
      modifies this
      ensures Valid()
      ensures err == if pod.name !in old(pods) then PodNotFound
                     else if old(pods)[pod.name].pod.phase.Running? then PodNotTerminatedYet
                     else Ok
      ensures podUpdates == old(podUpdates) + if err != Ok then [] else
                var cached := old(pods)[pod.name].pod;
                [Event(nodeId, cached.(deletion := OrElse(cached.deletion, OrElse(pod.deletion, Some(now)))), Delete)]
      ensures pods == DropIn(old(pods), pod.name) && nodeCalls == old(nodeCalls)
      ensures pods == if err == Ok then old(pods) - {pod.name} else old(pods)
      ensures Queued(queueCalls) == Queued(old(queueCalls)) - {pod.name}
    {
      hide Fold, WellLogged, Queued;
      Call(Dequeue(pod.name));
      if pod.name !in pods {
        return PodNotFound;
      }
      var cached := pods[pod.name].pod;
      if cached.phase.Running? {
        return PodNotTerminatedYet;
      }
      if cached.deletion == None {
        cached := cached.(deletion := if pod.deletion.Some? then pod.deletion else Some(now));
      }
      Emitted(podUpdates, Event(nodeId, cached, Delete));
      pods := pods - {pod.name};
      podUpdates := podUpdates + [Event(nodeId, cached, Delete)];
      assert Summary(pods) == Summary(old(pods)) - {pod.name};
      return Ok;
    }

    /** A cached pod changed in place by whoever looked it up; name and version stay. */
    method Touch(name: string, pod: Pod)
      requires Valid() && name in pods && pod.name == name && pod.version == pods[name].pod.version
      modifies this`pods
      ensures Valid()
      ensures pods == old(pods)[name := Held(pod, old(pods)[name].nodeId)]
    {
      pods := pods[name := Held(pod, pods[name].nodeId)];
      assert Summary(pods) == Summary(old(pods));
    }

    /**
      A pod no node has is deleted, unless it runs; any other stays cached, marked for deletion, until
      its node reports it terminated. The mark stays even if the call to the node fails.
     */
    method TerminatePod(name: string, rpc: bool, now: int) returns (err: Error)
      requires Valid()
      modifies this
      ensures Valid() && old(podUpdates) <= podUpdates
              && (podUpdates == old(podUpdates) <==> pods.Keys == old(pods).Keys)
      ensures name !in old(pods) ==> err == PodNotFound && pods == old(pods)
      ensures Queued(queueCalls) == Queued(old(queueCalls)) - if name in old(pods) then {name} else {}
      ensures name in old(pods) ==>
                var h := old(pods)[name];
                && err == (if h.nodeId != "" && !Terminated(h.pod) && !rpc then RpcFailed else Ok)
                && (name !in pods <==> h.nodeId == "" && !h.pod.phase.Running?)
                && (name in pods ==>
                      && pods[name].nodeId == h.nodeId
                      && pods[name].pod.(deletion := None, grace := None) == h.pod.(deletion := None, grace := None)
                      && pods[name].pod.deletion == (if h.pod.deletion.Some? then h.pod.deletion else Some(now))
                      && pods[name].pod.grace ==
                         (if h.pod.grace.Some? then h.pod.grace else Some(DEFAULT_GRACE_SECONDS)))
      ensures pods == MarkIn(old(pods), name, now)
      ensures nodeCalls == old(nodeCalls) +
              if name in old(pods) && old(pods)[name].nodeId != "" && !Terminated(old(pods)[name].pod)
              then [TerminateCall(old(pods)[name].nodeId, name)] else []
    {
      if name !in pods {
        return PodNotFound;
      }
      hide Fold, WellLogged, Queued;
      var h := pods[name];
      var marked := h.pod;
      Call(Dequeue(name));
      if h.nodeId == "" {
        var _ := DeletePod("", h.pod, now);
      }
      if marked.deletion == None {
        marked := marked.(deletion := Some(now));
      }
      if marked.grace == None {
        marked := marked.(grace := Some(DEFAULT_GRACE_SECONDS));
      }
      if name in pods {
        Touch(name, marked);
      }
      if h.nodeId != "" && !Terminated(marked) {
        nodeCalls := nodeCalls + [TerminateCall(h.nodeId, name)];
        if !rpc {
          return RpcFailed;
        }
      }
      return Ok;
    }
  }
}
