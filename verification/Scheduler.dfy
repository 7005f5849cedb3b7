/**
  The pod scheduler: node accounting, filtering, binding with rollback, and the rotation over chunks of
  nodes.
 */
module Scheduler {
  import opened Common

  /** CPU in thousandths of a core, memory in bytes. */
  datatype Resources = Resources(cpu: int, memory: int)

  const MINIMUM_CPU_REQUEST := 1000
  const MINIMUM_MEMORY_REQUEST := 50000

  function Plus(a: Resources, b: Resources): Resources { Resources(a.cpu + b.cpu, a.memory + b.memory) }

  function Minus(a: Resources, b: Resources): Resources { Resources(a.cpu - b.cpu, a.memory - b.memory) }

  function AtLeastZero(x: int): int { if x <= 0 then 0 else x }

  function Clamp(a: Resources): Resources { Resources(AtLeastZero(a.cpu), AtLeastZero(a.memory)) }

  predicate NonNegative(a: Resources) { a.cpu >= 0 && a.memory >= 0 }

  predicate Within(a: Resources, b: Resources) { a.cpu <= b.cpu && a.memory <= b.memory }

  /** A container counts with the requests it makes. */
  function Requests(containers: seq<Resources>): (r: Resources)
    ensures NonNegative(r)
  {
    if containers == [] then Resources(0, 0)
    else Plus(Requests(containers[..|containers| - 1]), Clamp(containers[|containers| - 1]))
  }

  /** A container's request counts if it makes one. */
  lemma RequestsOne(c: Resources)
    ensures Requests([c]).cpu == (if c.cpu > 0 then c.cpu else 0)
    ensures Requests([c]).memory == (if c.memory > 0 then c.memory else 0)
  {
    assert [c][..0] == [];
  }

  lemma RequestsSnoc(a: seq<Resources>, x: Resources)
    ensures Requests(a + [x]) == Plus(Requests(a), Clamp(x))
  {
    assert (a + [x])[..|a|] == a;
  }

  /** The requests of containers add up. */
  lemma {:induction false} RequestsAddUp(a: seq<Resources>, b: seq<Resources>)
    ensures Requests(a + b) == Plus(Requests(a), Requests(b))
    decreases |b|
  {
    hide Clamp;
    if b == [] {
      assert a + b == a;
    } else {
      var front, x := b[..|b| - 1], b[|b| - 1];
      RequestsAddUp(a, front);
      RequestsSnoc(a + front, x);
      RequestsSnoc(front, x);
      assert a + b == (a + front) + [x] && b == front + [x];
    }
  }

  lemma OneLess(a: multiset<Resources>, b: multiset<Resources>, x: Resources)
    requires a + multiset{x} == b + multiset{x}
    ensures a == b
  {
    assert a == (a + multiset{x}) - multiset{x};
  }

  /** Their order does not matter. */
  lemma {:induction false} RequestsInAnyOrder(a: seq<Resources>, b: seq<Resources>)
    requires multiset(a) == multiset(b)
    ensures Requests(a) == Requests(b)
    decreases |a|
  {
    hide Requests;
    SameElements(a, b);
    if a != [] {
      var front, x := a[..|a| - 1], a[|a| - 1];
      assert a == front + [x] && x in b;
      var k :| 0 <= k < |b| && b[k] == x;
      var l, r := b[..k], b[k + 1..];
      assert b == l + [x] + r;
      assert multiset(a) == multiset(front) + multiset{x} && multiset(b) == multiset(l) + multiset{x} + multiset(r);
      OneLess(multiset(front), multiset(l + r), x);
      RequestsInAnyOrder(front, l + r);
      RequestsAddUp(front, [x]);
      RequestsAddUp(l, [x]);
      RequestsAddUp(l + [x], r);
      RequestsAddUp(l, r);
    }
  }

  /** What a condition asks a node to have more than. */
  function Needed(request: Resources): Resources {
    Resources(if request.cpu > 0 then request.cpu else MINIMUM_CPU_REQUEST,
              if request.memory > 0 then request.memory else MINIMUM_MEMORY_REQUEST)
  }

  /** The CPU and the memory condition on what a node has left. */
  predicate Fits(capacity: Resources, occupied: Resources, request: Resources) {
    var left := Clamp(Minus(capacity, occupied));
    && left.cpu > 0 && left.cpu > Needed(request).cpu
    && left.memory > 0 && left.memory > Needed(request).memory
  }

  /**
    A pod fits exactly if what is occupied, with its request or the least that counts as one, stays below the capacity.
   */
  lemma FitsExactly(capacity: Resources, occupied: Resources, request: Resources)
    ensures Fits(capacity, occupied, request) <==>
            && occupied.cpu + (if request.cpu > 0 then request.cpu else MINIMUM_CPU_REQUEST) < capacity.cpu
            && occupied.memory + (if request.memory > 0 then request.memory else MINIMUM_MEMORY_REQUEST) <
               capacity.memory
  {
  }

  /** A pod admitted to a node it fits leaves the node below its capacity. */
  lemma FitsStaysWithin(capacity: Resources, occupied: Resources, request: Resources)
    requires NonNegative(occupied) && NonNegative(request) && Fits(capacity, occupied, request)
    ensures Clamp(Plus(occupied, request)) == Plus(occupied, request)
    ensures Plus(occupied, request).cpu < capacity.cpu && Plus(occupied, request).memory < capacity.memory
  {
  }

  /** Releasing what was just admitted restores the node. */
  lemma AdmitReleaseRestores(occupied: Resources, request: Resources)
    requires NonNegative(occupied) && NonNegative(request)
    ensures Clamp(Minus(Clamp(Plus(occupied, request)), request)) == occupied
  {
  }

  /** A pod that fits a node fits it too when less is occupied. */
  lemma FitsWhenLess(capacity: Resources, occupied: Resources, less: Resources, request: Resources)
    requires Fits(capacity, occupied, request) && Within(less, occupied)
    ensures Fits(capacity, less, request)
  {
  }

  class SchedulableNode {
    const nodeId: string
    const resourceList: Resources
    var occupied: Resources
    var lastUsed: int

    constructor (nodeId: string, resourceList: Resources, now: int)
      ensures this.nodeId == nodeId && this.resourceList == resourceList && occupied == Resources(0, 0)
              && lastUsed == now
    {
      this.nodeId, this.resourceList, this.occupied, this.lastUsed := nodeId, resourceList, Resources(0, 0), now;
    }

    method AdmitPodOccupiedResourceList(r: Resources)
      modifies this`occupied
      ensures occupied == Clamp(Plus(old(occupied), r))
    {
      var cpu := occupied.cpu + r.cpu;
      if cpu <= 0 { cpu := 0; }
      occupied := occupied.(cpu := cpu);
      var memory := occupied.memory + r.memory;
      if memory <= 0 { memory := 0; }
      occupied := occupied.(memory := memory);
    }

    method ReleasePodOccupiedResourceList(r: Resources)
      modifies this`occupied
      ensures occupied == Clamp(Minus(old(occupied), r))
    {
      var cpu := occupied.cpu - r.cpu;
      if cpu <= 0 { cpu := 0; }
      occupied := occupied.(cpu := cpu);
      var memory := occupied.memory - r.memory;
      if memory <= 0 { memory := 0; }
      occupied := occupied.(memory := memory);
    }

    function GetAllocatableResources(): (r: Resources)
      reads this
      ensures NonNegative(r) && Within(Minus(resourceList, occupied), r)
    {
      Clamp(Minus(resourceList, occupied))
    }

    predicate FitsPod(request: Resources)
      reads this
    {
      Fits(resourceList, occupied, request)
    }
  }

  class Pod {
    const name: string
    const containers: seq<Resources>
    const deleted: bool
    var hostIP: string
    var reason: string

    constructor (name: string, containers: seq<Resources>, deleted: bool)
      ensures this.name == name && this.containers == containers && this.deleted == deleted
      ensures hostIP == "" && reason == ""
    {
      this.name, this.containers, this.deleted, this.hostIP, this.reason := name, containers, deleted, "", "";
    }
  }

  datatype Verdict = Scheduled | PodIsDeleted | InsufficientResource | PodBindToNode

  datatype SortingMethod = MoreMemory | LessLastUse

  // ---------- Filtering and sorting ----------

  /** The requests of a pod's containers, added up. */
  method GetPodResourceList(containers: seq<Resources>) returns (r: Resources)
    ensures r == Requests(containers)
  {
    r := Resources(0, 0);
    for k := 0 to |containers|
      invariant r == Requests(containers[..k])
    {
      assert containers[..k + 1][..k] == containers[..k];
      if containers[k].cpu > 0 { r := r.(cpu := r.cpu + containers[k].cpu); }
      if containers[k].memory > 0 { r := r.(memory := r.memory + containers[k].memory); }
    }
    assert containers[..|containers|] == containers;
  }

  /** The nodes the pod fits, in order. */
  ghost function Fitting(nodes: seq<SchedulableNode>, request: Resources): (r: seq<SchedulableNode>)
    reads nodes
    ensures forall n :: n in nodes && n.FitsPod(request) ==> n in r
    ensures forall n :: n in r ==> n in nodes && n.FitsPod(request)
    ensures |r| <= |nodes|
  {
    if nodes == [] then []
    else
      var last := nodes[|nodes| - 1];
      assert nodes == nodes[..|nodes| - 1] + [last];
      Fitting(nodes[..|nodes| - 1], request) + if last.FitsPod(request) then [last] else []
  }

  /** The first candidates the pod fits, as many as are to be evaluated. */
  method FilterNodes(candidates: seq<SchedulableNode>, request: Resources, evaluate: nat)
      returns (available: seq<SchedulableNode>, ghost upto: nat)
    requires evaluate > 0
    ensures upto <= |candidates| && available == Fitting(candidates[..upto], request)
    ensures upto == |candidates| || |available| == evaluate
    ensures |available| <= evaluate
    ensures forall n :: n in available ==> n in candidates && n.FitsPod(request)
    ensures |available| < evaluate || |candidates| <= evaluate ==>
              forall n :: n in candidates && n.FitsPod(request) ==> n in available
  {
    hide SchedulableNode.FitsPod;
    available, upto := [], 0;
    for k := 0 to |candidates|
      invariant upto == k && |available| < evaluate
      invariant available == Fitting(candidates[..k], request)
    {
      var node := candidates[k];
      assert candidates[..k + 1][..k] == candidates[..k];
      if node.FitsPod(request) {
        available := available + [node];
      }
      upto := k + 1;
      if |available| >= evaluate {
        break;
      }
    }
    assert upto == |candidates| ==> candidates[..upto] == candidates;
  }

  function SortKey(node: SchedulableNode, how: SortingMethod): int
    reads node
  {
    match how
    case MoreMemory => -node.GetAllocatableResources().memory
    case LessLastUse => node.lastUsed
  }

  ghost predicate InOrder(nodes: seq<SchedulableNode>, how: SortingMethod)
    reads nodes
  {
    forall i, j :: 0 <= i < j < |nodes| ==> SortKey(nodes[i], how) <= SortKey(nodes[j], how)
  }

  function InsertAt<T>(s: seq<T>, k: nat, x: T): (r: seq<T>)
    requires k <= |s|
    ensures |r| == |s| + 1 && multiset(r) == multiset(s) + multiset{x}
    ensures forall i :: 0 <= i < |r| ==> r[i] == if i < k then s[i] else if i == k then x else s[i - 1]
  {
    assert s == s[..k] + s[k..];
    s[..k] + [x] + s[k..]
  }

  lemma Inserted(nodes: seq<SchedulableNode>, node: SchedulableNode, how: SortingMethod, k: nat)
    requires InOrder(nodes, how) && k <= |nodes|
    requires k > 0 ==> SortKey(nodes[k - 1], how) <= SortKey(node, how)
    requires forall i :: k <= i < |nodes| ==> SortKey(node, how) <= SortKey(nodes[i], how)
    ensures InOrder(InsertAt(nodes, k, node), how)
  {
    hide SortKey;
    var r := InsertAt(nodes, k, node);
    forall i, j | 0 <= i < j < |r|
      ensures SortKey(r[i], how) <= SortKey(r[j], how)
    {
      var a, b := if i < k then i else i - 1, if j < k then j else j - 1;
      if i != k && j != k {
        assert SortKey(nodes[a], how) <= SortKey(nodes[b], how);
      } else if j == k {
        assert i == k - 1 || SortKey(nodes[i], how) <= SortKey(nodes[k - 1], how);
      }
    }
  }

  method Insert(nodes: seq<SchedulableNode>, node: SchedulableNode, how: SortingMethod)
      returns (r: seq<SchedulableNode>)
    requires InOrder(nodes, how)
    ensures InOrder(r, how) && multiset(r) == multiset(nodes) + multiset{node}
  {
    var k := |nodes|;
    while k > 0 && SortKey(nodes[k - 1], how) > SortKey(node, how)
      invariant 0 <= k <= |nodes|
      invariant forall i :: k <= i < |nodes| ==> SortKey(node, how) <= SortKey(nodes[i], how)
    {
      k := k - 1;
    }
    Inserted(nodes, node, how, k);
    r := InsertAt(nodes, k, node);
  }

  method SortNodes(nodes: seq<SchedulableNode>, how: SortingMethod) returns (sorted: seq<SchedulableNode>)
    ensures InOrder(sorted, how) && multiset(sorted) == multiset(nodes)
  {
    sorted := [];
    for k := 0 to |nodes|
      invariant InOrder(sorted, how) && multiset(sorted) == multiset(nodes[..k])
    {
      assert nodes[..k + 1] == nodes[..k] + [nodes[k]];
      sorted := Insert(sorted, nodes[k], how);
    }
    assert nodes[..|nodes|] == nodes;
  }

  lemma SameElements<T>(a: seq<T>, b: seq<T>)
    requires multiset(a) == multiset(b)
    ensures |a| == |b|
    ensures forall x :: x in a ==> x in b
    ensures forall x :: x in b ==> x in a
  {
    assert |a| == |multiset(a)| && |b| == |multiset(b)|;
    assert forall x :: x in a ==> x in multiset(a);
    assert forall x :: x in b ==> x in multiset(b);
  }

  lemma RoomFor(nodes: seq<SchedulableNode>, request: Resources)
    requires NonNegative(request) && forall n :: n in nodes ==> NonNegative(n.occupied) && n.FitsPod(request)
    ensures forall n :: n in nodes ==> Within(Plus(n.occupied, request), n.resourceList)
  {
    forall n | n in nodes
      ensures Within(Plus(n.occupied, request), n.resourceList)
    {
      FitsStaysWithin(n.resourceList, n.occupied, request);
    }
  }

  // ---------- Binding ----------

  /** `willing` are the nodes that start a pod when they are asked to. */
  method BindNode(node: SchedulableNode, pod: Pod, willing: set<SchedulableNode>, now: int) returns (ok: bool)
    modifies node, pod
    ensures ok == (node in willing) && node.lastUsed == now
    ensures node.occupied == Clamp(Plus(old(node.occupied), Requests(pod.containers)))
    ensures pod.hostIP == node.nodeId && pod.reason == "Scheduled"
  {
    var r := GetPodResourceList(pod.containers);
    node.AdmitPodOccupiedResourceList(r);
    node.lastUsed := now;
    pod.hostIP, pod.reason := node.nodeId, "Scheduled";
    ok := node in willing;
  }

  method UnbindNode(node: SchedulableNode, pod: Pod)
    modifies node`occupied, pod
    ensures node.occupied == Clamp(Minus(old(node.occupied), Requests(pod.containers)))
    ensures pod.hostIP == "" && pod.reason == "Schedule failed"
  {
    var r := GetPodResourceList(pod.containers);
    node.ReleasePodOccupiedResourceList(r);
    pod.hostIP, pod.reason := "", "Schedule failed";
  }

  /** Occupancy after a pod went to `target`, or to no node. */
  twostate predicate Charged(nodes: set<SchedulableNode>, new target: Option<SchedulableNode>, request: Resources)
    reads nodes
  {
    forall n :: n in nodes ==>
      n.occupied == if target == Some(n) then Plus(old(n.occupied), request) else old(n.occupied)
  }

  /** The first willing node gets the pod; a node that refuses gets its resources back. */
  method BindFirst(nodes: seq<SchedulableNode>, pod: Pod, willing: set<SchedulableNode>, now: int,
      ghost all: set<SchedulableNode>)
      returns (target: Option<SchedulableNode>, ghost at: nat)
    requires nodes != [] && forall n :: n in nodes ==> n in all
    requires forall n :: n in all ==> NonNegative(n.occupied)
    modifies all, pod
    ensures forall j :: 0 <= j < at <= |nodes| ==> nodes[j] !in willing
    ensures target.Some? <==> at < |nodes|
    ensures target.Some? ==> target.value == nodes[at] && nodes[at] in willing
    ensures target.Some? ==> pod.hostIP == target.value.nodeId && pod.reason == "Scheduled"
    ensures target.None? ==> at == |nodes| && pod.hostIP == "" && pod.reason == "Schedule failed"
    ensures Charged(all, target, Requests(pod.containers))
  {
    var k := 0;
    while k < |nodes|
      invariant 0 <= k <= |nodes| && forall j :: 0 <= j < k ==> nodes[j] !in willing
      invariant forall n :: n in all ==> n.occupied == old(n.occupied)
      invariant k > 0 ==> pod.hostIP == "" && pod.reason == "Schedule failed"
    {
      var node := nodes[k];
      AdmitReleaseRestores(node.occupied, Requests(pod.containers));
      var ok := BindNode(node, pod, willing, now);
      if ok {
        return Some(node), k;
      }
      UnbindNode(node, pod);
      k := k + 1;
    }
    return None, k;
  }

  /** No willing node of the list comes before the chosen one. */
  lemma FirstWilling(sorted: seq<SchedulableNode>, how: SortingMethod, willing: set<SchedulableNode>, at: nat,
      n: SchedulableNode)
    requires InOrder(sorted, how) && at < |sorted| && n in sorted && n in willing
    requires forall j :: 0 <= j < at ==> sorted[j] !in willing
    ensures SortKey(sorted[at], how) <= SortKey(n, how)
  {
    var k :| 0 <= k < |sorted| && sorted[k] == n;
  }

  /** The one node has at least as much memory left, or was not used later, than the other. */
  predicate NotAfter(a: SchedulableNode, b: SchedulableNode, how: SortingMethod)
    reads a, b
  {
    match how
    case MoreMemory => b.resourceList.memory - b.occupied.memory <= a.resourceList.memory - a.occupied.memory
    case LessLastUse => a.lastUsed <= b.lastUsed
  }

  /** Of nodes that a pod fits, the one that sorts first. */
  lemma SortsFirst(a: SchedulableNode, b: SchedulableNode, how: SortingMethod, request: Resources)
    requires a.FitsPod(request) && b.FitsPod(request)
    ensures SortKey(a, how) <= SortKey(b, how) <==> NotAfter(a, b, how)
  {
  }

  /** Some node of the list has room for the request and starts pods. */
  ghost predicate SomeTakes(nodes: seq<SchedulableNode>, request: Resources, willing: set<SchedulableNode>)
    reads nodes
  {
    exists n :: n in nodes && n in willing && n.FitsPod(request)
  }

  /**
    A pod that is not deleted goes to a candidate it fits, which then is below its capacity, or to none;
    any other node's occupancy is as before, and so is every node's if the pod is not scheduled. Of the
    `available` nodes that are willing it is one that sorts first.
   */
  method SchedulePod(pod: Pod, candidates: seq<SchedulableNode>, evaluate: nat, how: SortingMethod,
      willing: set<SchedulableNode>, now: int,
                     ghost all: set<SchedulableNode>)
      returns (verdict: Verdict, target: Option<SchedulableNode>, ghost available: seq<SchedulableNode>)
    requires evaluate > 0 && forall n :: n in candidates ==> n in all
    requires forall n :: n in all ==> NonNegative(n.occupied)
    modifies all, pod
    ensures verdict == PodIsDeleted <==> pod.deleted
    ensures verdict == InsufficientResource <==>
            !pod.deleted && forall n :: n in candidates ==> !old(n.FitsPod(Requests(pod.containers)))
    ensures verdict == Scheduled <==> target.Some?
    ensures target.Some? ==> target.value in available && target.value in willing
    ensures target.Some? ==>
              pod.hostIP == target.value.nodeId && Within(target.value.occupied, target.value.resourceList)
    ensures verdict == PodBindToNode ==> pod.hostIP == "" && pod.reason == "Schedule failed"
    ensures verdict == PodBindToNode ==> available != [] && forall n :: n in available ==> n !in willing
    ensures forall n :: n in available ==> n in candidates && old(n.FitsPod(Requests(pod.containers)))
    ensures (|available| < evaluate || |candidates| <= evaluate) && !pod.deleted ==>
              forall n :: n in candidates && old(n.FitsPod(Requests(pod.containers))) ==> n in available
    ensures |candidates| <= evaluate ==>
              (verdict == Scheduled <==> !pod.deleted && old(SomeTakes(candidates, Requests(pod.containers), willing)))
    ensures target.Some? ==>
              forall n :: n in available && n in willing ==> old(SortKey(target.value, how)) <= old(SortKey(n, how))
    ensures Charged(all, target, Requests(pod.containers))
  {
    available := [];
    if pod.deleted {
      return PodIsDeleted, None, [];
    }
    var request := GetPodResourceList(pod.containers);
    hide SchedulableNode.FitsPod, Fitting, InOrder, SortKey;
    var found, upto := FilterNodes(candidates, request, evaluate);
    available := found;
    if |found| == 0 {
      return InsufficientResource, None, found;
    }
    assert found[0] in found;
    var sorted := SortNodes(found, how);
    SameElements(sorted, found);
    RoomFor(sorted, request);
    ghost var at;
    FirstOfAll(sorted, how, willing);
    target, at := BindFirst(sorted, pod, willing, now, all);
    if target.Some? {
      verdict := Scheduled;
    } else {
      verdict := PodBindToNode;
    }
  }

  lemma FirstOfAll(sorted: seq<SchedulableNode>, how: SortingMethod, willing: set<SchedulableNode>)
    requires InOrder(sorted, how)
    ensures forall at, n :: 0 <= at < |sorted| && n in sorted && n in willing
                            && (forall j :: 0 <= j < at ==> sorted[j] !in willing) ==>
              SortKey(sorted[at], how) <= SortKey(n, how)
  {
    forall at, n | 0 <= at < |sorted| && n in sorted && n in willing
                   && (forall j :: 0 <= j < at ==> sorted[j] !in willing)
      ensures SortKey(sorted[at], how) <= SortKey(n, how)
    {
      FirstWilling(sorted, how, willing, at, n);
    }
  }

  // ---------- Chunks of nodes ----------

  function ChunkCount(nodes: nat, size: nat): nat
    requires size > 0
  {
    (nodes + size - 1) / size
  }

  /** The nodes that go to a chunk. */
  function Slice<T>(nodes: seq<T>, size: nat, c: nat): (r: seq<T>)
    requires size > 0 && c < ChunkCount(|nodes|, size)
    ensures 0 < |r| <= size
  {
    ChunkStarts(|nodes|, size, c);
    nodes[c * size..Min((c + 1) * size, |nodes|)]
  }

  lemma {:induction false} ProductRises(a: nat, b: nat, size: nat)
    requires a <= b
    ensures a * size <= b * size
    decreases b
  {
    if a < b {
      ProductRises(a, b - 1, size);
      assert b * size == (b - 1) * size + size;
    }
  }

  lemma Quotient(x: nat, size: nat)
    requires size > 0
    ensures (x / size) * size <= x < (x / size) * size + size
  {
    assert x == (x / size) * size + x % size;
  }

  lemma ChunkStarts(nodes: nat, size: nat, c: nat)
    requires size > 0 && c < ChunkCount(nodes, size)
    ensures (c + 1) * size == c * size + size
    ensures 0 <= c * size < Min((c + 1) * size, nodes)
  {
    Quotient(nodes + size - 1, size);
    ProductRises(c + 1, ChunkCount(nodes, size), size);
    ProductRises(0, c, size);
    assert (c + 1) * size == c * size + size;
  }

  method InitializeChunkSchedulers(allNodes: seq<SchedulableNode>, size: nat, how: SortingMethod)
      returns (chunks: seq<seq<SchedulableNode>>)
    requires size > 0
    ensures |chunks| == ChunkCount(|allNodes|, size) && AllEvaluated(chunks, size)
    ensures forall c :: 0 <= c < |chunks| ==>
              InOrder(chunks[c], how) && multiset(chunks[c]) == multiset(Slice(allNodes, size, c))
  {
    chunks := [];
    var count := ChunkCount(|allNodes|, size);
    for c := 0 to count
      invariant |chunks| == c
      invariant forall d :: 0 <= d < c ==>
                  InOrder(chunks[d], how) && multiset(chunks[d]) == multiset(Slice(allNodes, size, d))
    {
      var nodes := SortNodes(Slice(allNodes, size, c), how);
      chunks := chunks + [nodes];
    }
    forall c | 0 <= c < |chunks|
      ensures |chunks[c]| <= size
    {
      SameElements(chunks[c], Slice(allNodes, size, c));
    }
  }

  /** Every position belongs to one slice, and to no other. */
  lemma SliceOf(nodes: nat, size: nat, k: nat, c: nat)
    requires size > 0 && k < nodes && c < ChunkCount(nodes, size)
    ensures k / size < ChunkCount(nodes, size)
    ensures c * size <= k < Min((c + 1) * size, nodes) <==> c == k / size
  {
    var d, q := k / size, ChunkCount(nodes, size);
    Quotient(k, size);
    Quotient(nodes + size - 1, size);
    ChunkStarts(nodes, size, c);
    if c < d {
      ProductRises(c + 1, d, size);
    } else if c > d {
      ProductRises(d + 1, c, size);
      assert (d + 1) * size == d * size + size;
    }
    if q <= d {
      ProductRises(q, d, size);
      assert false;
    }
  }

  /** The chunks partition the nodes. */
  lemma EachInOneChunk<T>(nodes: seq<T>, size: nat, chunks: seq<seq<T>>, k: nat, c: nat)
    requires size > 0 && |chunks| == ChunkCount(|nodes|, size) && k < |nodes| && c < |chunks|
    requires forall d :: 0 <= d < |chunks| ==> multiset(chunks[d]) == multiset(Slice(nodes, size, d))
    requires forall i, j :: 0 <= i < j < |nodes| ==> nodes[i] != nodes[j]
    ensures nodes[k] in chunks[c] <==> c == k / size
  {
    SliceOf(|nodes|, size, k, c);
    ChunkStarts(|nodes|, size, c);
    SameElements(chunks[c], Slice(nodes, size, c));
    var slice, lo := Slice(nodes, size, c), c * size;
    if c == k / size {
      assert slice[k - lo] == nodes[k];
    } else {
      forall i | 0 <= i < |slice|
        ensures slice[i] != nodes[k]
      {
        assert slice[i] == nodes[lo + i] && lo + i != k;
      }
    }
  }

  /** The chunk that the attempt of number `i` of the pod at `index` goes to. */
  function Turn(index: nat, i: nat, n: nat): (c: nat)
    requires n > 0
    ensures c < n
  {
    (index + i) % n
  }

  lemma TurnIs(index: nat, i: nat, n: nat)
    requires index < n && i < n
    ensures Turn(index, i, n) == if index + i < n then index + i else index + i - n
  {
  }

  /** In `n` turns every chunk comes up, and comes up once. */
  lemma TurnsCoverAll(index: nat, n: nat, c: nat)
    requires index < n && c < n
    ensures forall i, j :: 0 <= i < j < n ==> Turn(index, i, n) != Turn(index, j, n)
    ensures exists i :: 0 <= i < n && Turn(index, i, n) == c
  {
    hide Turn;
    forall i | 0 <= i < n
      ensures Turn(index, i, n) == if index + i < n then index + i else index + i - n
    {
      TurnIs(index, i, n);
    }
    assert Turn(index, if c >= index then c - index else c + n - index, n) == c;
  }

  predicate AllEvaluated(chunks: seq<seq<SchedulableNode>>, evaluate: nat) {
    forall c :: 0 <= c < |chunks| ==> |chunks[c]| <= evaluate
  }

  /** Some node of some chunk has room for the request and starts pods. */
  ghost predicate SomeChunkTakes(chunks: seq<seq<SchedulableNode>>, request: Resources, willing: set<SchedulableNode>,
      all: set<SchedulableNode>)
    requires forall c, n :: 0 <= c < |chunks| && n in chunks[c] ==> n in all
    reads all
  {
    exists c :: 0 <= c < |chunks| && SomeTakes(chunks[c], request, willing)
  }

  type Occupancy = map<SchedulableNode, Resources>

  /** The same, of nodes that are as occupied as noted. */
  ghost predicate TakesNoted(nodes: seq<SchedulableNode>, request: Resources, willing: set<SchedulableNode>,
      occupancy: Occupancy) {
    exists n :: n in nodes && n in willing && n in occupancy && Fits(n.resourceList, occupancy[n], request)
  }

  lemma TakesAsNoted(nodes: seq<SchedulableNode>, request: Resources, willing: set<SchedulableNode>,
      occupancy: Occupancy)
    requires forall n :: n in nodes ==> n in occupancy && n.occupied == occupancy[n]
    ensures SomeTakes(nodes, request, willing) <==> TakesNoted(nodes, request, willing, occupancy)
  {
    hide Fits;
    assert forall n :: n in nodes ==> (n.FitsPod(request) <==> Fits(n.resourceList, occupancy[n], request));
  }

  /** Some chunk takes the pod exactly if one does in its turn. */
  lemma SomeTurnTakes(chunks: seq<seq<SchedulableNode>>, request: Resources, willing: set<SchedulableNode>,
      all: set<SchedulableNode>, occupancy: Occupancy, index: nat)
    requires index < |chunks| && forall c, n :: 0 <= c < |chunks| && n in chunks[c] ==> n in all
    requires forall n :: n in all ==> n in occupancy && n.occupied == occupancy[n]
    ensures SomeChunkTakes(chunks, request, willing, all) <==>
            exists k :: 0 <= k < |chunks| && TakesNoted(chunks[Turn(index, k, |chunks|)], request, willing, occupancy)
  {
    hide Turn, SomeTakes, TakesNoted;
    forall c | 0 <= c < |chunks|
      ensures SomeTakes(chunks[c], request, willing) <==> TakesNoted(chunks[c], request, willing, occupancy)
    {
      TakesAsNoted(chunks[c], request, willing, occupancy);
    }
    if c :| 0 <= c < |chunks| && SomeTakes(chunks[c], request, willing) {
      TurnsCoverAll(index, |chunks|, c);
      var k :| 0 <= k < |chunks| && Turn(index, k, |chunks|) == c;
    }
  }

  /**
    A pod is offered to the chunks in turn, and given up only when every chunk has refused it. With no more
    nodes in a chunk than are evaluated, it finds a node exactly if one takes it.
   */
  method TryChunks(pod: Pod, index: nat, chunks: seq<seq<SchedulableNode>>, evaluate: nat, how: SortingMethod,
                   willing: set<SchedulableNode>, now: int, ghost all: set<SchedulableNode>)
      returns (verdict: Verdict, target: Option<SchedulableNode>, tried: seq<nat>)
    requires index < |chunks| && evaluate > 0
    requires forall c, n :: 0 <= c < |chunks| && n in chunks[c] ==> n in all
    requires forall n :: n in all ==> NonNegative(n.occupied)
    modifies all, pod
    ensures verdict == Scheduled <==> target.Some?
    ensures 0 < |tried| <= |chunks| && forall i :: 0 <= i < |tried| ==> tried[i] == Turn(index, i, |chunks|)
    ensures verdict != Scheduled ==> |tried| == |chunks|
    ensures AllEvaluated(chunks, evaluate) ==>
              (verdict == Scheduled <==>
               !pod.deleted && old(SomeChunkTakes(chunks, Requests(pod.containers), willing, all)))
    ensures verdict == PodIsDeleted <==> pod.deleted
    ensures target.Some? ==>
              && target.value in chunks[Turn(index, |tried| - 1, |chunks|)]
              && Within(target.value.occupied, target.value.resourceList)
    ensures Charged(all, target, Requests(pod.containers))
  {
    hide Turn, SomeTakes, TakesNoted, SomeChunkTakes, SchedulableNode.FitsPod, SortKey;
    ghost var request := Requests(pod.containers);
    ghost var occupancy := map n | n in all :: n.occupied;
    SomeTurnTakes(chunks, request, willing, all, occupancy, index);
    tried, target, verdict := [], None, InsufficientResource;
    for i := 0 to |chunks|
      invariant |tried| == i && forall k :: 0 <= k < i ==> tried[k] == Turn(index, k, |chunks|)
      invariant target == None && verdict != Scheduled && (i > 0 ==> (verdict == PodIsDeleted <==> pod.deleted))
      invariant forall n :: n in all ==> n.occupied == old(n.occupied)
      invariant AllEvaluated(chunks, evaluate) && !pod.deleted ==>
                  forall k :: 0 <= k < i ==> !TakesNoted(chunks[Turn(index, k, |chunks|)], request, willing, occupancy)
    {
      var c := Turn(index, i, |chunks|);
      tried := tried + [c];
      TakesAsNoted(chunks[c], request, willing, occupancy);
      ghost var available;
      verdict, target, available := SchedulePod(pod, chunks[c], evaluate, how, willing, now, all);
      if verdict == Scheduled {
        return;
      }
    }
  }
}
