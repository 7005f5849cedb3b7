/**
  The core's view of each node: which pods it has reported, and how its reports change the pod cache.
 */
module NodeManager {
  import opened Common
  import opened PodManager

  datatype Outcome = Done | OutOfOrder | Failure(error: Error)

  /** The cache, and the pods known of one node. */
  datatype View = View(cache: Cache, known: set<string>)

  /** One pod of a report. */
  function Report(v: View, nodeId: string, pod: Pod, rpc: bool, now: int): View {
    if pod.name in v.cache && !Newer(v.cache, pod) then v
    else View(Upsert(v.cache, nodeId, pod, rpc, now),
              if Dropped(v.cache, nodeId, pod, rpc) then v.known else v.known + {pod.name})
  }

  /** A pod of a report with its sessions, and whether its node takes a call to terminate it. */
  datatype Entry = Entry(pod: Pod, rpc: bool, sessions: seq<string>)

  /** What the session manager is told: the state of a session, on a pod, from a node. */
  datatype SessionReport = SessionReport(nodeId: string, podName: string, session: string)

  /** The report of a pod is applied. */
  predicate Applied(v: View, nodeId: string, pod: Pod, rpc: bool) {
    (pod.name !in v.cache || Newer(v.cache, pod)) && !Dropped(v.cache, nodeId, pod, rpc)
  }

  function SessionsOf(nodeId: string, podName: string, sessions: seq<string>): (r: seq<SessionReport>)
    ensures |r| == |sessions|
  {
    seq(|sessions|, i requires 0 <= i < |sessions| => SessionReport(nodeId, podName, sessions[i]))
  }

  /** The sessions of a pod go on to the session manager exactly if the pod's report is applied. */
  function Forwarded(v: View, nodeId: string, e: Entry): seq<SessionReport> {
    if Applied(v, nodeId, e.pod, e.rpc) then SessionsOf(nodeId, e.pod.name, e.sessions) else []
  }

  function ForwardedAll(v: View, nodeId: string, report: seq<Entry>, now: int): seq<SessionReport>
    decreases |report|
  {
    if report == [] then []
    else
      var front := report[..|report| - 1];
      ForwardedAll(v, nodeId, front, now) + Forwarded(ReportAll(v, nodeId, front, now), nodeId, report[|report| - 1])
  }

  function ReportAll(v: View, nodeId: string, report: seq<Entry>, now: int): View
    decreases |report|
  {
    if report == [] then v
    else
      var last := report[|report| - 1];
      Report(ReportAll(v, nodeId, report[..|report| - 1], now), nodeId, last.pod, last.rpc, now)
  }

  function Names(report: seq<Entry>): set<string> {
    set e | e in report :: e.pod.name
  }

  /** Pods known before that the report leaves out: deleted, or forgotten if they were deleted before. */
  function DropOmitted(v: View, omitted: set<string>): View {
    View(v.cache - omitted, v.known - (omitted - v.cache.Keys))
  }

  function Sync(v: View, nodeId: string, report: seq<Entry>, now: int): View {
    DropOmitted(ReportAll(v, nodeId, report, now), v.known - Names(report))
  }

  // ---------- A full report ----------

  lemma NamesSnoc(report: seq<Entry>)
    requires report != []
    ensures Names(report) == Names(report[..|report| - 1]) + {report[|report| - 1].pod.name}
  {
    assert report == report[..|report| - 1] + [report[|report| - 1]];
  }

  /** Only pods of the report change, and only they become known. */
  lemma {:induction false} ReportFrame(v: View, nodeId: string, report: seq<Entry>, now: int, n: string)
    requires n !in Names(report)
    ensures var w := ReportAll(v, nodeId, report, now);
            && (n in w.cache <==> n in v.cache) && (n in v.cache ==> w.cache[n] == v.cache[n])
            && (n in w.known <==> n in v.known)
    decreases |report|
  {
    if report != [] {
      NamesSnoc(report);
      ReportFrame(v, nodeId, report[..|report| - 1], now, n);
    }
  }

  lemma {:induction false} KnownGrows(v: View, nodeId: string, report: seq<Entry>, now: int)
    ensures v.known <= ReportAll(v, nodeId, report, now).known <= v.known + Names(report)
    decreases |report|
  {
    if report != [] {
      NamesSnoc(report);
      KnownGrows(v, nodeId, report[..|report| - 1], now);
    }
  }

  /** A running pod of the report is cached, unless the same report later says it terminated. */
  lemma {:induction false} ReportHolds(v: View, nodeId: string, report: seq<Entry>, now: int, i: nat)
    requires i < |report| && !Terminated(report[i].pod)
    requires forall j :: i < j < |report| && report[j].pod.name == report[i].pod.name ==> !Terminated(report[j].pod)
    ensures report[i].pod.name in ReportAll(v, nodeId, report, now).cache
    decreases |report|
  {
    if i < |report| - 1 {
      ReportHolds(v, nodeId, report[..|report| - 1], now, i);
    }
  }

  /** After a full report no pod is cached that was known and is left out. */
  lemma OmittedAreGone(v: View, nodeId: string, report: seq<Entry>, now: int, n: string)
    requires n in v.known && n !in Names(report)
    ensures n !in Sync(v, nodeId, report, now).cache
  {
  }

  lemma ReportedAreHeld(v: View, nodeId: string, report: seq<Entry>, now: int, i: nat)
    requires i < |report| && !Terminated(report[i].pod)
    requires forall j :: i < j < |report| && report[j].pod.name == report[i].pod.name ==> !Terminated(report[j].pod)
    ensures report[i].pod.name in Sync(v, nodeId, report, now).cache
  {
    ReportHolds(v, nodeId, report, now, i);
    assert report[i] in report;
  }

  /** A pod that the node neither was known to have nor reports is not touched. */
  lemma StrangersAreSpared(v: View, nodeId: string, report: seq<Entry>, now: int, n: string)
    requires n !in v.known && n !in Names(report)
    ensures var w := Sync(v, nodeId, report, now);
            (n in w.cache <==> n in v.cache) && (n in v.cache ==> w.cache[n] == v.cache[n]) && n !in w.known
  {
    ReportFrame(v, nodeId, report, now, n);
  }

  /** Two reports of the same pods in a row leave nothing known that they do not name. */
  lemma TwoReportsSettle(v: View, nodeId: string, report: seq<Entry>, again: seq<Entry>, now: int, later: int)
    requires Names(again) == Names(report)
    ensures Sync(Sync(v, nodeId, report, now), nodeId, again, later).known <= Names(report)
  {
    var w := Sync(v, nodeId, report, now);
    var x := Sync(w, nodeId, again, later);
    KnownGrows(v, nodeId, report, now);
    KnownGrows(w, nodeId, again, later);
    forall n | n in x.known
      ensures n in Names(report)
    {
      if n !in Names(report) {
        assert n in w.known && n in v.known;
        OmittedAreGone(v, nodeId, report, now, n);
        ReportFrame(w, nodeId, again, later, n);
        assert false;
      }
    }
  }

  /**
    One report leaves nothing known that it does not name exactly if every known pod it leaves out was
    gone from the cache before: a pod that it deletes stays known until the next report.
   */
  lemma OneReportSettlesIff(v: View, nodeId: string, report: seq<Entry>, now: int)
    ensures Sync(v, nodeId, report, now).known <= Names(report) <==>
            forall n :: n in v.known && n !in Names(report) ==> n !in v.cache
  {
    var w := ReportAll(v, nodeId, report, now);
    KnownGrows(v, nodeId, report, now);
    forall n | n !in Names(report)
      ensures n in w.cache <==> n in v.cache
    {
      ReportFrame(v, nodeId, report, now, n);
    }
  }

  /** A cached pod that a report leaves out: the report does not settle. */
  lemma OneReportDoesNotSettle(nodeId: string, pod: Pod, now: int)
    requires !Terminated(pod)
    ensures var v := View(map[pod.name := Held(pod, nodeId)], {pod.name});
            !(Sync(v, nodeId, [], now).known <= Names([])) && Sync(v, nodeId, [], now).cache == map[]
  {
    var v := View(map[pod.name := Held(pod, nodeId)], {pod.name});
    OneReportSettlesIff(v, nodeId, [], now);
    assert pod.name in v.known && pod.name !in Names([]);
  }

  /** The known pods outside `left` have been looked at. */
  ghost predicate Dropping(was: Cache, existing: set<string>, reported: set<string>, left: set<string>, cache: Cache,
      deleted: set<string>) {
    && left <= existing
    && cache == was - (existing - left - reported)
    && deleted == (existing - left - reported) - was.Keys
  }

  lemma DropNone(was: Cache, existing: set<string>, reported: set<string>)
    ensures Dropping(was, existing, reported, existing, was, {})
  {
  }

  lemma DropOne(was: Cache, existing: set<string>, reported: set<string>, left: set<string>, cache: Cache,
      deleted: set<string>, n: string)
    requires Dropping(was, existing, reported, left, cache, deleted) && n in left
    ensures n in reported ==> Dropping(was, existing, reported, left - {n}, cache, deleted)
    ensures n !in reported ==>
              Dropping(was, existing, reported, left - {n}, cache - {n}, if n in cache then deleted else deleted + {n})
  {
    var gone := existing - left - reported;
    if n in reported {
      assert existing - (left - {n}) - reported == gone;
    } else {
      assert existing - (left - {n}) - reported == gone + {n};
      assert was - gone - {n} == was - (gone + {n});
    }
  }

  lemma DropAll(was: Cache, existing: set<string>, reported: set<string>, cache: Cache, deleted: set<string>)
    requires Dropping(was, existing, reported, {}, cache, deleted)
    ensures cache == was - (existing - reported) && deleted == (existing - reported) - was.Keys
  {
    assert existing - {} - reported == existing - reported;
  }

  /** Nothing is cached of the pod, or something older. */
  predicate IsNews(c: Cache, pod: Pod) { pod.name !in c || pod.version > c[pod.name].pod.version }

  class NodeManager {
    const podManager: PodManager
    /** The pods each node has reported. */
    var nodes: map<string, set<string>>
    /** What the session manager has been told. */
    var sessionReports: seq<SessionReport>

    constructor (podManager: PodManager)
      ensures this.podManager == podManager && nodes == map[] && sessionReports == []
    {
      this.podManager, this.nodes, this.sessionReports := podManager, map[], [];
    }

    ghost function ViewOf(nodeId: string): View
      requires nodeId in nodes
      reads this, podManager
    {
      View(podManager.pods, nodes[nodeId])
    }

    /** A node already there stays as it is. */
    method CreateNode(nodeId: string) returns (created: bool)
      modifies this`nodes
      ensures created <==> nodeId !in old(nodes)
      ensures nodes == if created then old(nodes)[nodeId := {}] else old(nodes)
    {
      created := nodeId !in nodes;
      if created {
        nodes := nodes[nodeId := {}];
      }
    }

    /** The session manager is told of a session if its pod is cached. */
    method UpdateSessionState(nodeId: string, podName: string, session: string)
      requires podManager.Valid()
      modifies this`sessionReports
      ensures sessionReports == old(sessionReports) +
              if podName in podManager.pods then [SessionReport(nodeId, podName, session)] else []
    {
      var pod := podManager.FindPod(podName);
      if pod.Some? {
        sessionReports := sessionReports + [SessionReport(nodeId, podName, session)];
      }
    }

    method ForwardSessions(nodeId: string, podName: string, sessions: seq<string>)
      modifies this`sessionReports
      ensures sessionReports == old(sessionReports) + SessionsOf(nodeId, podName, sessions)
    {
      for k := 0 to |sessions|
        invariant sessionReports == old(sessionReports) + SessionsOf(nodeId, podName, sessions)[..k]
      {
        sessionReports := sessionReports + [SessionReport(nodeId, podName, sessions[k])];
      }
    }

    method UpdatePodState(nodeId: string, pod: Pod, sessions: seq<string>, rpc: bool, now: int)
        returns (outcome: Outcome)
      requires podManager.Valid()
      modifies this, podManager
      ensures podManager.Valid()
      ensures nodeId !in old(nodes) ==>
                && outcome == OutOfOrder && nodes == old(nodes) && podManager.pods == old(podManager.pods)
                && sessionReports == old(sessionReports)
      ensures nodeId in old(nodes) ==>
                && sessionReports == old(sessionReports) +
                                     Forwarded(old(ViewOf(nodeId)), nodeId, Entry(pod, rpc, sessions))
                && nodes.Keys == old(nodes).Keys && nodes == old(nodes)[nodeId := nodes[nodeId]]
                && ViewOf(nodeId) == Report(old(ViewOf(nodeId)), nodeId, pod, rpc, now)
                && outcome == if Dropped(old(podManager.pods), nodeId, pod, rpc) then Failure(RpcFailed) else Done
      ensures nodeId in old(nodes) && !IsNews(old(podManager.pods), pod) ==>
                outcome == Done && podManager.pods == old(podManager.pods) && sessionReports == old(sessionReports)
      ensures nodeId in old(nodes) && IsNews(old(podManager.pods), pod) && rpc ==>
                && outcome == Done && pod.name in nodes[nodeId]
                && (pod.name in podManager.pods <==> !Terminated(pod))
                && (pod.name in podManager.pods ==>
                      && podManager.pods[pod.name].nodeId == nodeId
                      && podManager.pods[pod.name].pod.version == pod.version
                      && podManager.pods[pod.name].pod.phase == pod.phase)
                && |sessionReports| == |old(sessionReports)| + |sessions|
                && forall i :: 0 <= i < |sessions| ==>
                     sessionReports[|old(sessionReports)| + i] == SessionReport(nodeId, pod.name, sessions[i])
    {
      hide PodManager.Valid, Upsert;
      if nodeId !in nodes {
        return OutOfOrder;
      }
      var existing := podManager.FindPod(pod.name);
      if existing.Some? {
        if !(pod.version > existing.value.version) {
          assert nodes == nodes[nodeId := nodes[nodeId]];
          return Done;
        }
      }
      var err := podManager.AddOrUpdatePod(nodeId, pod, rpc, now);
      if err != Ok {
        assert nodes == nodes[nodeId := nodes[nodeId]];
        return Failure(err);
      }
      nodes := nodes[nodeId := nodes[nodeId] + {pod.name}];
      ForwardSessions(nodeId, pod.name, sessions);
      return Done;
    }

    /** The loop over the pods of the report. */
    method TakeReport(nodeId: string, report: seq<Entry>, now: int) returns (reported: set<string>)
      requires podManager.Valid() && nodeId in nodes
      modifies this, podManager
      ensures podManager.Valid() && nodeId in nodes
      ensures nodes.Keys == old(nodes).Keys && nodes == old(nodes)[nodeId := nodes[nodeId]]
      ensures reported == Names(report)
      ensures ViewOf(nodeId) == ReportAll(old(ViewOf(nodeId)), nodeId, report, now)
      ensures sessionReports == old(sessionReports) + ForwardedAll(old(ViewOf(nodeId)), nodeId, report, now)
    {
      hide PodManager.Valid, Report, Forwarded;
      reported := {};
      for k := 0 to |report|
        invariant podManager.Valid() && nodeId in nodes
        invariant nodes.Keys == old(nodes).Keys && nodes == old(nodes)[nodeId := nodes[nodeId]]
        invariant reported == Names(report[..k])
        invariant ViewOf(nodeId) == ReportAll(old(ViewOf(nodeId)), nodeId, report[..k], now)
        invariant sessionReports == old(sessionReports) + ForwardedAll(old(ViewOf(nodeId)), nodeId, report[..k], now)
      {
        NamesSnoc(report[..k + 1]);
        assert report[..k + 1][..k] == report[..k];
        reported := reported + {report[k].pod.name};
        var _ := UpdatePodState(nodeId, report[k].pod, report[k].sessions, report[k].rpc, now);
      }
      assert report[..|report|] == report;
    }

    /** A pod that its node does not report any more: marked failed if it was not terminated, then deleted. */
    method DropPod(nodeId: string, name: string, now: int) returns (found: bool)
      requires podManager.Valid()
      modifies podManager
      ensures podManager.Valid()
      ensures found <==> name in old(podManager.pods)
      ensures podManager.pods == old(podManager.pods) - {name}
    {
      hide Fold, WellLogged, Summary;
      var pod := podManager.FindPod(name);
      if pod == None {
        return false;
      }
      if !Terminated(pod.value) {
        pod := Some(pod.value.(phase := Failed));
        podManager.Touch(name, pod.value);
      }
      var _ := podManager.DeletePod(nodeId, pod.value, now);
      return true;
    }

    /** The loop over the pods known before. */
    method DropUnreported(nodeId: string, existing: set<string>, reported: set<string>, now: int)
        returns (deleted: set<string>)
      requires podManager.Valid()
      modifies podManager
      ensures podManager.Valid()
      ensures podManager.pods == old(podManager.pods) - (existing - reported)
      ensures deleted == (existing - reported) - old(podManager.pods).Keys
    {
      hide PodManager.Valid, Dropping;
      deleted := {};
      var left := existing;
      ghost var was := podManager.pods;
      DropNone(was, existing, reported);
      while left != {}
        invariant podManager.Valid() && Dropping(was, existing, reported, left, podManager.pods, deleted)
        decreases |left|
      {
        var name :| name in left;
        DropOne(was, existing, reported, left, podManager.pods, deleted, name);
        if name !in reported {
          var found := DropPod(nodeId, name, now);
          if !found {
            deleted := deleted + {name};
          }
        }
        left := left - {name};
      }
      DropAll(was, existing, reported, podManager.pods, deleted);
    }

    method SyncNodePodStates(nodeId: string, report: seq<Entry>, now: int)
      requires podManager.Valid()
      modifies this, podManager
      ensures podManager.Valid()
      ensures nodeId !in old(nodes) ==>
                nodes == old(nodes) && podManager.pods == old(podManager.pods) && sessionReports == old(sessionReports)
      ensures nodeId in old(nodes) ==>
                && sessionReports == old(sessionReports) + ForwardedAll(old(ViewOf(nodeId)), nodeId, report, now)
                && nodes.Keys == old(nodes).Keys && nodes == old(nodes)[nodeId := nodes[nodeId]]
                && ViewOf(nodeId) == Sync(old(ViewOf(nodeId)), nodeId, report, now)
    {
      hide PodManager.Valid, ReportAll, ForwardedAll;
      if nodeId !in nodes {
        return;
      }
      var existing := nodes[nodeId];
      var reported := TakeReport(nodeId, report, now);
      var deleted := DropUnreported(nodeId, existing, reported, now);
      nodes := nodes[nodeId := nodes[nodeId] - deleted];
    }
  }
}
