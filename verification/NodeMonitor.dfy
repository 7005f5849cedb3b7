/**
  The revision protocol between nodes and the core. A node numbers its changes; the core takes a change
  only if it is the next one or the one it took last, and takes full states to catch up.
 */
module NodeMonitor {
  import opened Common
  import opened PodManager
  import opened NodeManager

  datatype Message =
    | Registry(revision: int)
    | FullState(revision: int, report: seq<Entry>)
    | PodState(revision: int, pod: Pod, rpc: bool, sessions: seq<string>)
    | SessionState(revision: int, podName: string, session: string)

  predicate Incremental(m: Message) { m.PodState? || m.SessionState? }

  /** What the core does with a message of a node it has at revision `r`. */
  predicate Accepts(r: Option<int>, m: Message) {
    match m
    case Registry(_) => true
    case FullState(v, _) => r.None? || r.value <= v || v == 1
    case PodState(v, _, _, _) => r.Some? && (v == r.value + 1 || v == r.value)
    case SessionState(v, _, _) => r.Some? && (v == r.value + 1 || v == r.value)
  }

  function Next(r: Option<int>, m: Message): Option<int> {
    if Accepts(r, m) then Some(m.revision) else r
  }

  // ---------- Any sequence of messages, however the network delivers them ----------

  function After(delivered: seq<Message>): Option<int>
    decreases |delivered|
  {
    if delivered == [] then None else Next(After(delivered[..|delivered| - 1]), delivered[|delivered| - 1])
  }

  predicate Accepted(delivered: seq<Message>, j: nat)
    requires j < |delivered|
  {
    Accepts(After(delivered[..j]), delivered[j])
  }

  /** The last registration or full state that was accepted, -1 before the first. */
  function Base(delivered: seq<Message>): (b: int)
    ensures -1 <= b < |delivered|
    ensures b >= 0 ==> !Incremental(delivered[b])
    decreases |delivered|
  {
    if delivered == [] then -1
    else
      var last := |delivered| - 1;
      if !Incremental(delivered[last]) && Accepts(After(delivered[..last]), delivered[last]) then last
      else Base(delivered[..last])
  }

  /** The revision `v` was taken as an incremental message after position `b`. */
  ghost predicate TakenSince(delivered: seq<Message>, b: int, v: int) {
    exists j :: b < j < |delivered| && 0 <= j && Incremental(delivered[j]) && delivered[j].revision == v
      && Accepted(delivered, j)
  }

  lemma TakenBefore(delivered: seq<Message>, b: int, v: int)
    requires delivered != [] && TakenSince(delivered[..|delivered| - 1], b, v)
    ensures TakenSince(delivered, b, v)
  {
    var rest := delivered[..|delivered| - 1];
    var j :| b < j < |rest| && 0 <= j && Incremental(rest[j]) && rest[j].revision == v && Accepted(rest, j);
    assert rest[..j] == delivered[..j];
    assert Accepted(delivered, j);
  }

  /** Whatever the network lost, repeated or reordered, what the core took since its base has no gap. */
  lemma {:induction false} GapFree(delivered: seq<Message>)
    requires After(delivered).Some?
    ensures var b := Base(delivered);
            && b >= 0
            && delivered[b].revision <= After(delivered).value
            && forall v :: delivered[b].revision < v <= After(delivered).value ==> TakenSince(delivered, b, v)
    decreases |delivered|
  {
    var last := |delivered| - 1;
    var rest, m := delivered[..last], delivered[last];
    if After(rest).Some? {
      GapFree(rest);
      var b := Base(rest);
      if Incremental(m) || !Accepts(After(rest), m) {
        forall v | delivered[b].revision < v <= After(delivered).value
          ensures TakenSince(delivered, b, v)
        {
          if v <= After(rest).value {
            TakenBefore(delivered, b, v);
          } else {
            assert Accepted(delivered, last);
          }
        }
      }
    }
  }

  /** While the next revision does not come, and no registration or full state does, nothing newer is taken. */
  lemma {:induction false} StuckAfterGap(delivered: seq<Message>, more: seq<Message>, r: int)
    requires After(delivered) == Some(r)
    requires forall k :: 0 <= k < |more| ==> Incremental(more[k]) && more[k].revision != r + 1
    ensures After(delivered + more) == Some(r)
    ensures forall j :: |delivered| <= j < |delivered + more| && Accepted(delivered + more, j) ==>
              (delivered + more)[j].revision == r
    decreases |more|
  {
    var all := delivered + more;
    if more == [] {
      assert all == delivered;
    } else {
      var rest := more[..|more| - 1];
      StuckAfterGap(delivered, rest, r);
      assert all[..|all| - 1] == delivered + rest;
      forall j | |delivered| <= j < |all| && Accepted(all, j)
        ensures all[j].revision == r
      {
        if j < |all| - 1 { SameAccepted(delivered + rest, all, j); }
      }
    }
  }

  lemma SameAccepted(a: seq<Message>, b: seq<Message>, j: nat)
    requires a <= b && j < |a|
    ensures a[j] == b[j] && (Accepted(a, j) <==> Accepted(b, j))
  {
    assert a[..j] == b[..j];
  }

  /** An incremental message is taken exactly if it is the next one or the last one again. */
  lemma IncrementalTaken(delivered: seq<Message>, m: Message)
    requires Incremental(m)
    ensures Accepted(delivered + [m], |delivered|) <==>
            After(delivered).Some? && After(delivered).value <= m.revision <= After(delivered).value + 1
    ensures After(delivered + [m]) ==
            if Accepted(delivered + [m], |delivered|) then Some(m.revision) else After(delivered)
  {
    assert (delivered + [m])[..|delivered|] == delivered;
  }

  /** After any messages, changes that come in order, none missing, are all taken. */
  lemma {:induction false} InOrderTaken(delivered: seq<Message>, more: seq<Message>, b: int)
    requires After(delivered) == Some(b)
    requires forall k :: 0 <= k < |more| ==> Incremental(more[k]) && more[k].revision == b + 1 + k
    ensures After(delivered + more) == Some(b + |more|)
    ensures forall j :: |delivered| <= j < |delivered + more| ==> Accepted(delivered + more, j)
    decreases |more|
  {
    var all := delivered + more;
    if more == [] {
      assert all == delivered;
    } else {
      var rest, m := more[..|more| - 1], more[|more| - 1];
      InOrderTaken(delivered, rest, b);
      assert all == (delivered + rest) + [m];
      IncrementalTaken(delivered + rest, m);
      forall j | |delivered| <= j < |all|
        ensures Accepted(all, j)
      {
        if j < |all| - 1 { SameAccepted(delivered + rest, all, j); }
      }
    }
  }

  /** A node that registers, sends its full state and then its changes: everything is taken, whatever was before. */
  lemma SessionIsTaken(delivered: seq<Message>, full: Message, more: seq<Message>, first: int)
    requires full.FullState? && first <= full.revision
    requires forall k :: 0 <= k < |more| ==> Incremental(more[k]) && more[k].revision == full.revision + 1 + k
    ensures var all := delivered + [Registry(first), full] + more;
            && After(all) == Some(full.revision + |more|)
            && forall j :: |delivered| <= j < |all| ==> Accepted(all, j)
  {
    var start := delivered + [Registry(first), full];
    assert start[..|delivered| + 1] == delivered + [Registry(first)];
    assert start[..|delivered| + 1][..|delivered|] == delivered && start[..|delivered|] == delivered;
    assert start[..|start| - 1] == start[..|delivered| + 1];
    assert After(start[..|delivered| + 1]) == Some(first);
    InOrderTaken(start, more, full.revision);
    forall j | |delivered| <= j < |start|
      ensures Accepted(start + more, j)
    {
      SameAccepted(start, start + more, j);
    }
  }

  /** The revision goes back only by a registration, or by a full state of revision 1. */
  lemma {:induction false} GoesBackOnly(delivered: seq<Message>, i: nat, j: nat)
    requires i <= j <= |delivered| && After(delivered[..i]).Some?
    requires forall k :: i <= k < j ==>
               !delivered[k].Registry? && (delivered[k].FullState? ==> delivered[k].revision != 1)
    ensures After(delivered[..j]).Some? && After(delivered[..i]).value <= After(delivered[..j]).value
    decreases j
  {
    if i < j {
      GoesBackOnly(delivered, i, j - 1);
      assert delivered[..j][..j - 1] == delivered[..j - 1];
    }
  }

  // ---------- The core's side ----------

  class NodeMonitor {
    const nodeManager: NodeManager
    /** The revision of each node. */
    var nodes: map<string, int>

    constructor (nodeManager: NodeManager)
      requires nodeManager.nodes == map[] && nodeManager.podManager.Valid()
      ensures Valid() && this.nodeManager == nodeManager && nodes == map[]
    {
      this.nodeManager, this.nodes := nodeManager, map[];
    }

    /** The monitor and the node manager know the same nodes. */
    ghost predicate Valid()
      reads this, nodeManager, nodeManager.podManager
    {
      nodes.Keys == nodeManager.nodes.Keys && nodeManager.podManager.Valid()
    }

    ghost function Revision(nodeId: string): Option<int>
      reads this
    {
      if nodeId in nodes then Some(nodes[nodeId]) else None
    }

    predicate ValidateNodeRevision(nodeId: string, revision: int)
      reads this
    {
      nodeId in nodes && (revision == nodes[nodeId] + 1 || revision == nodes[nodeId])
    }

    /** Every other node stays as it was. */
    twostate predicate OnlyNode(nodeId: string)
      reads this, nodeManager
    {
      && nodes == (if nodeId in nodes then old(nodes)[nodeId := nodes[nodeId]] else old(nodes))
      && nodeManager.nodes == (if nodeId in nodeManager.nodes
                               then old(nodeManager.nodes)[nodeId := nodeManager.nodes[nodeId]]
                               else old(nodeManager.nodes))
    }

    method OnRegistry(nodeId: string, revision: int)
      requires Valid()
      modifies this, nodeManager`nodes
      ensures Valid() && OnlyNode(nodeId) && Revision(nodeId) == Next(old(Revision(nodeId)), Registry(revision))
      ensures nodeId in nodes && nodes[nodeId] == revision
      ensures nodeId in old(nodes) ==> nodeManager.nodes == old(nodeManager.nodes)
      ensures nodeId !in old(nodes) ==> nodeManager.nodes == old(nodeManager.nodes)[nodeId := {}]
    {
      nodes := nodes[nodeId := revision];
      var _ := nodeManager.CreateNode(nodeId);
    }

    /** A message in order moves the revision, whether or not anybody knows the session's pod. */
    method OnSessionUpdate(nodeId: string, revision: int, podName: string, session: string) returns (outcome: Outcome)
      requires Valid()
      modifies this, nodeManager`sessionReports
      ensures Valid() && Revision(nodeId) == Next(old(Revision(nodeId)), SessionState(revision, podName, session))
      ensures forall n :: n != nodeId ==> Revision(n) == old(Revision(n))
      ensures outcome == Done <==> nodeId in old(nodes) && old(nodes[nodeId]) <= revision <= old(nodes[nodeId]) + 1
      ensures outcome == Done ==> nodeId in nodes && nodes[nodeId] == revision
      ensures outcome == if Accepts(old(Revision(nodeId)), SessionState(revision, podName, session))
                         then Done else OutOfOrder
      ensures nodeManager.sessionReports == old(nodeManager.sessionReports) +
              if outcome == Done && podName in nodeManager.podManager.pods
              then [SessionReport(nodeId, podName, session)] else []
    {
      hide PodManager.Valid;
      if !ValidateNodeRevision(nodeId, revision) {
        return OutOfOrder;
      }
      nodes := nodes[nodeId := revision];
      nodeManager.UpdateSessionState(nodeId, podName, session);
      return Done;
    }

    /** The revision moves on even if the pod's update is then dropped. */
    method OnPodStateUpdate(nodeId: string, revision: int, pod: Pod, sessions: seq<string>, rpc: bool, now: int)
        returns (outcome: Outcome)
      requires Valid()
      modifies this, nodeManager, nodeManager.podManager
      ensures Valid() && OnlyNode(nodeId)
              && Revision(nodeId) == Next(old(Revision(nodeId)), PodState(revision, pod, rpc, sessions))
      ensures outcome != OutOfOrder <==>
              nodeId in old(nodes) && old(nodes[nodeId]) <= revision <= old(nodes[nodeId]) + 1
      ensures outcome != OutOfOrder ==> nodeId in nodes && nodes[nodeId] == revision
      ensures if Accepts(old(Revision(nodeId)), PodState(revision, pod, rpc, sessions)) then
                && nodeId in nodeManager.nodes
                && nodeManager.ViewOf(nodeId) == Report(old(nodeManager.ViewOf(nodeId)), nodeId, pod, rpc, now)
                && outcome == (if Dropped(old(nodeManager.podManager.pods), nodeId, pod, rpc)
                               then Failure(RpcFailed) else Done)
                && nodeManager.sessionReports == old(nodeManager.sessionReports) +
                                                 Forwarded(old(nodeManager.ViewOf(nodeId)), nodeId,
                                                           Entry(pod, rpc, sessions))
              else
                && outcome == OutOfOrder && nodeManager.nodes == old(nodeManager.nodes)
                && nodeManager.podManager.pods == old(nodeManager.podManager.pods)
                && nodeManager.sessionReports == old(nodeManager.sessionReports)
    {
      hide PodManager.Valid, Report, Forwarded;
      if !ValidateNodeRevision(nodeId, revision) {
        return OutOfOrder;
      }
      nodes := nodes[nodeId := revision];
      outcome := nodeManager.UpdatePodState(nodeId, pod, sessions, rpc, now);
    }

    /** The node as it was known, with nothing known of a new one. */
    ghost function Known(nodeId: string): View
      requires nodeId in nodes ==> nodeId in nodeManager.nodes
      reads this, nodeManager, nodeManager.podManager
    {
      View(nodeManager.podManager.pods, if nodeId in nodes then nodeManager.nodes[nodeId] else {})
    }

    method UpdateOrCreateNode(nodeId: string, revision: int, report: seq<Entry>, now: int)
      requires Valid()
      modifies this, nodeManager, nodeManager.podManager
      ensures Valid() && OnlyNode(nodeId)
              && Revision(nodeId) == Next(old(Revision(nodeId)), FullState(revision, report))
      ensures nodeId in nodes
      ensures nodes[nodeId] == if nodeId !in old(nodes) || old(nodes[nodeId]) <= revision || revision == 1
                               then revision else old(nodes[nodeId])
      ensures if Accepts(old(Revision(nodeId)), FullState(revision, report)) then
                && nodeId in nodeManager.nodes
                && nodeManager.ViewOf(nodeId) == Sync(old(Known(nodeId)), nodeId, report, now)
                && nodeManager.sessionReports ==
                   old(nodeManager.sessionReports) + ForwardedAll(old(Known(nodeId)), nodeId, report, now)
              else
                && nodeManager.nodes == old(nodeManager.nodes)
                && nodeManager.podManager.pods == old(nodeManager.podManager.pods)
                && nodeManager.sessionReports == old(nodeManager.sessionReports)
    {
      hide PodManager.Valid, Sync, ForwardedAll;
      if nodeId !in nodes {
        nodes := nodes[nodeId := revision];
        var created := nodeManager.CreateNode(nodeId);
        if !created {
          return;
        }
        nodeManager.SyncNodePodStates(nodeId, report, now);
      } else {
        if nodes[nodeId] > revision && revision != 1 {
          return;
        }
        nodes := nodes[nodeId := revision];
        nodeManager.SyncNodePodStates(nodeId, report, now);
      }
    }
  }
}
