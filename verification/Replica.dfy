/**
  The core as a replica of a node. A node has a history of numbered changes; the core receives any
  sequence of messages cut from that history, in any order, with losses and repetitions.
 */
module Replica {
  import opened Common
  import opened PodManager
  import opened NodeManager
  import opened NodeMonitor

  /** A numbered change: a pod's state, or something that is not about pods. `gone` pods leave the node's list. */
  datatype Change = PodChange(name: string, terminated: bool, gone: bool) | OtherChange

  /** The change of revision `v` is at index `v - 1`. */
  type History = seq<Change>

  /** A pod leaves the node's list only when it is terminated. */
  predicate Proper(h: History) {
    forall k :: 0 <= k < |h| && h[k].PodChange? && h[k].gone ==> h[k].terminated
  }

  predicate IsChange(h: History, w: int, n: string) {
    0 < w <= |h| && h[w - 1].PodChange? && h[w - 1].name == n
  }

  predicate NumberedBy(h: History, v: int, n: string) {
    exists w :: 0 < w <= v && IsChange(h, w, n)
  }

  datatype Stat = Stat(version: int, terminated: bool)

  /** The node's pods at a revision. */
  function NodeAt(h: History, v: nat): map<string, Stat>
    requires v <= |h|
  {
    if v == 0 then map[]
    else
      match h[v - 1]
      case PodChange(n, terminated, gone) =>
        if gone then NodeAt(h, v - 1) - {n} else NodeAt(h, v - 1)[n := Stat(v, terminated)]
      case OtherChange => NodeAt(h, v - 1)
  }

  /** The pods that live on the node, with their versions. */
  ghost function Live(h: History, v: nat): map<string, int>
    requires v <= |h|
  {
    map n | n in NodeAt(h, v) && !NodeAt(h, v)[n].terminated :: NodeAt(h, v)[n].version
  }

  /** Pods in the cache that came from the node's numbered reports. */
  ghost function HeldFor(c: Cache, node: string): map<string, int> {
    map n | n in c && c[n].nodeId == node && c[n].pod.version > 0 :: c[n].pod.version
  }

  ghost predicate Agrees(h: History, v: nat, c: Cache, node: string)
    requires v <= |h|
  {
    HeldFor(c, node) == Live(h, v)
  }

  // ---------- What a node sends ----------

  /** A pod in a full state: numbered, or new and not numbered yet. */
  ghost predicate HonestEntry(h: History, v: nat, e: Entry)
    requires v <= |h|
  {
    var n := e.pod.name;
    if n in NodeAt(h, v)
    then e.pod.version == NodeAt(h, v)[n].version && (Terminated(e.pod) <==> NodeAt(h, v)[n].terminated)
    else e.pod.version <= 0 && !NumberedBy(h, v, n)
  }

  ghost predicate HonestReport(h: History, v: nat, report: seq<Entry>)
    requires v <= |h|
  {
    && (forall i, j :: 0 <= i < j < |report| ==> report[i].pod.name != report[j].pod.name)
    && (forall i :: 0 <= i < |report| ==> HonestEntry(h, v, report[i]))
    && NodeAt(h, v).Keys <= Names(report)
  }

  ghost predicate Honest(h: History, m: Message) {
    && 0 <= m.revision <= |h|
    && match m
       case Registry(_) => true
       case FullState(v, report) => HonestReport(h, v, report)
       case PodState(v, pod, _, _) =>
         IsChange(h, v, pod.name) && pod.version == v && (Terminated(pod) <==> h[v - 1].terminated)
       case SessionState(v, _, _) => v > 0 && h[v - 1].OtherChange?
  }

  // ---------- The node's pods ----------

  /** A pod's version is that of its last change. */
  lemma {:induction false} VersionIsLast(h: History, v: nat, n: string)
    requires v <= |h| && n in NodeAt(h, v)
    ensures var s := NodeAt(h, v)[n];
            0 < s.version <= v && IsChange(h, s.version, n) && s.terminated == h[s.version - 1].terminated
    ensures forall w :: NodeAt(h, v)[n].version < w <= v ==> !IsChange(h, w, n)
  {
    if !IsChange(h, v, n) {
      VersionIsLast(h, v - 1, n);
    }
  }

  // ---------- What holds in every run ----------

  /** A cached pod with a version of the node's was put there by a report of the node, and is known. */
  ghost predicate Traceable(h: History, view: View, node: string, n: string)
    requires n in view.cache
  {
    var held := view.cache[n];
    held.pod.version > 0 && (held.nodeId == node || NumberedBy(h, |h|, n)) ==>
      && held.nodeId == node && n in view.known
      && IsChange(h, held.pod.version, n) && !h[held.pod.version - 1].terminated
  }

  ghost predicate Sane(h: History, view: View, node: string) {
    forall n :: n in view.cache ==> view.cache[n].pod.name == n && Traceable(h, view, node, n)
  }

  /** No cached version is past `v`. */
  ghost predicate UpTo(c: Cache, node: string, v: int) {
    forall n :: n in HeldFor(c, node) ==> HeldFor(c, node)[n] <= v
  }

  datatype Core = Core(revision: Option<int>, view: View)

  function Deliver(core: Core, node: string, m: Message, now: int): Core {
    if !Accepts(core.revision, m) then core
    else
      Core(Some(m.revision),
           match m
           case Registry(_) => core.view
           case FullState(_, report) => Sync(core.view, node, report, now)
           case PodState(_, pod, rpc, _) => Report(core.view, node, pod, rpc, now)
           case SessionState(_, _, _) => core.view)
  }

  /** An entry or message as one report of a pod, good for any cache that holds nothing newer than `v`. */
  ghost predicate HonestPod(h: History, v: int, pod: Pod) {
    if pod.version <= 0 then !NumberedBy(h, v, pod.name)
    else pod.version <= v && IsChange(h, pod.version, pod.name) && (Terminated(pod) <==> h[pod.version - 1].terminated)
  }

  lemma EntryIsHonest(h: History, v: nat, e: Entry)
    requires v <= |h| && HonestEntry(h, v, e)
    ensures HonestPod(h, v, e.pod)
  {
    if e.pod.name in NodeAt(h, v) {
      VersionIsLast(h, v, e.pod.name);
    }
  }

  lemma ReportSane(h: History, view: View, node: string, v: int, pod: Pod, rpc: bool, now: int)
    requires Sane(h, view, node) && v <= |h| && HonestPod(h, v, pod)
    ensures Sane(h, Report(view, node, pod, rpc, now), node)
  {
    var w := Report(view, node, pod, rpc, now);
    forall n | n in w.cache
      ensures w.cache[n].pod.name == n && Traceable(h, w, node, n)
    {
      if n in view.cache { assert Traceable(h, view, node, n); }
    }
  }

  lemma {:induction false} ReportAllSane(h: History, view: View, node: string, v: int, report: seq<Entry>, now: int)
    requires Sane(h, view, node) && v <= |h| && forall i :: 0 <= i < |report| ==> HonestPod(h, v, report[i].pod)
    ensures Sane(h, ReportAll(view, node, report, now), node)
    decreases |report|
  {
    if report != [] {
      var rest, last := report[..|report| - 1], report[|report| - 1];
      ReportAllSane(h, view, node, v, rest, now);
      ReportSane(h, ReportAll(view, node, rest, now), node, v, last.pod, last.rpc, now);
    }
  }

  /** Whatever honest message comes, and whatever calls fail, the cache stays traceable. */
  lemma DeliverSane(h: History, core: Core, node: string, m: Message, now: int)
    requires Sane(h, core.view, node) && Honest(h, m)
    ensures Sane(h, Deliver(core, node, m, now).view, node)
  {
    match m
    case FullState(v, report) =>
      forall i | 0 <= i < |report|
        ensures HonestPod(h, v, report[i].pod)
      {
        EntryIsHonest(h, v, report[i]);
      }
      ReportAllSane(h, core.view, node, v, report, now);
      DropSane(h, ReportAll(core.view, node, report, now), node, core.view.known - Names(report));
    case PodState(v, pod, rpc, _) => ReportSane(h, core.view, node, v, pod, rpc, now);
    case _ =>
  }

  lemma DropSane(h: History, view: View, node: string, omitted: set<string>)
    requires Sane(h, view, node)
    ensures Sane(h, DropOmitted(view, omitted), node)
  {
    var w := DropOmitted(view, omitted);
    forall n | n in w.cache
      ensures w.cache[n].pod.name == n && Traceable(h, w, node, n)
    {
      assert Traceable(h, view, node, n);
    }
  }

  // ---------- A full state ----------

  predicate SameAt(a: Cache, b: Cache, n: string) {
    (n in a <==> n in b) && (n in a ==> a[n] == b[n])
  }

  lemma {:induction false} ReportAt(view: View, node: string, report: seq<Entry>, now: int, i: nat)
    requires i < |report|
    requires forall i, j :: 0 <= i < j < |report| ==> report[i].pod.name != report[j].pod.name
    ensures SameAt(ReportAll(view, node, report, now).cache,
                   Report(view, node, report[i].pod, report[i].rpc, now).cache, report[i].pod.name)
    decreases |report|
  {
    var rest, last := report[..|report| - 1], report[|report| - 1];
    if i < |rest| {
      ReportAt(view, node, rest, now, i);
    } else {
      forall e | e in rest
        ensures e.pod.name != last.pod.name
      {
        var k :| 0 <= k < |rest| && rest[k] == e;
        assert report[k] == e;
      }
      ReportFrame(view, node, rest, now, last.pod.name);
    }
  }

  ghost predicate HeldAs(c: Cache, node: string, live: map<string, int>, n: string) {
    (n in HeldFor(c, node) <==> n in live) && (n in live ==> HeldFor(c, node)[n] == live[n])
  }

  /** The node's pod is held at a later version than it is now reported at. */
  ghost predicate HeldNewer(c: Cache, node: string, pod: Pod) {
    pod.name in HeldFor(c, node) && HeldFor(c, node)[pod.name] > pod.version
  }

  /** The report brings the pod in step. */
  ghost predicate EntryHeals(c: Cache, node: string, e: Entry) {
    !HeldNewer(c, node, e.pod) && (e.pod.version > 0 ==> !Dropped(c, node, e.pod, e.rpc))
  }

  /** One honest report, at its own pod. */
  lemma EntryAt(h: History, view: View, node: string, v: nat, e: Entry, now: int)
    requires Sane(h, view, node) && v <= |h| && HonestEntry(h, v, e)
    ensures HeldAs(Report(view, node, e.pod, e.rpc, now).cache, node, Live(h, v), e.pod.name) <==>
              EntryHeals(view.cache, node, e)
  {
    hide Upsert, HeldFor;
    var n := e.pod.name;
    HeldIff(view.cache, node, n);
    HeldIff(Report(view, node, e.pod, e.rpc, now).cache, node, n);
    UpsertAt(view.cache, node, e.pod, e.rpc, now);
    if n in view.cache {
      assert Traceable(h, view, node, n);
    }
    if n in NodeAt(h, v) {
      VersionIsLast(h, v, n);
      assert NumberedBy(h, |h|, n);
    }
  }

  /** No update of a numbered pod is dropped because the call to its node failed. */
  ghost predicate NothingDropped(c: Cache, node: string, report: seq<Entry>) {
    forall i :: 0 <= i < |report| && report[i].pod.version > 0 ==> !Dropped(c, node, report[i].pod, report[i].rpc)
  }

  /** No pod of the report is held for the node at a later version. */
  ghost predicate NoneNewer(c: Cache, node: string, report: seq<Entry>) {
    forall i :: 0 <= i < |report| ==> !HeldNewer(c, node, report[i].pod)
  }

  lemma SyncAtReported(h: History, view: View, node: string, v: nat, report: seq<Entry>, now: int, i: nat)
    requires Sane(h, view, node) && v <= |h| && HonestReport(h, v, report) && i < |report|
    ensures HeldAs(Sync(view, node, report, now).cache, node, Live(h, v), report[i].pod.name) <==>
            EntryHeals(view.cache, node, report[i])
  {
    hide Upsert, Report, Sane, HonestEntry, EntryHeals, ReportAll;
    ReportAt(view, node, report, now, i);
    EntryAt(h, view, node, v, report[i], now);
    assert report[i] in report;
    assert SameAt(Sync(view, node, report, now).cache, ReportAll(view, node, report, now).cache, report[i].pod.name);
  }

  lemma SyncAtOmitted(h: History, view: View, node: string, v: nat, report: seq<Entry>, now: int, n: string)
    requires Sane(h, view, node) && v <= |h| && HonestReport(h, v, report) && n !in Names(report)
    ensures HeldAs(Sync(view, node, report, now).cache, node, Live(h, v), n)
  {
    ReportFrame(view, node, report, now, n);
    if n in view.cache { assert Traceable(h, view, node, n); }
    assert n !in NodeAt(h, v);
  }

  /**
    A full state makes the core agree with the node at its revision exactly if no pod of it is held at a
    later version and no update of it is dropped, whatever revision the core was at.
   */
  lemma FullStateHeals(h: History, view: View, node: string, v: nat, report: seq<Entry>, now: int)
    requires Sane(h, view, node) && v <= |h| && HonestReport(h, v, report)
    ensures Agrees(h, v, Sync(view, node, report, now).cache, node) <==>
            NothingDropped(view.cache, node, report) && NoneNewer(view.cache, node, report)
  {
    hide Sync, Sane, HonestReport, Live, Dropped, HeldFor, HeldNewer;
    var c := Sync(view, node, report, now).cache;
    forall i | 0 <= i < |report|
      ensures HeldAs(c, node, Live(h, v), report[i].pod.name) <==> EntryHeals(view.cache, node, report[i])
    {
      SyncAtReported(h, view, node, v, report, now, i);
    }
    forall n | n !in Names(report)
      ensures HeldAs(c, node, Live(h, v), n)
    {
      SyncAtOmitted(h, view, node, v, report, now, n);
    }
    if forall i :: 0 <= i < |report| ==> EntryHeals(view.cache, node, report[i]) {
      forall n
        ensures HeldAs(c, node, Live(h, v), n)
      {
        if n in Names(report) {
          var e :| e in report && e.pod.name == n;
          var i :| 0 <= i < |report| && report[i] == e;
        }
      }
      SameHeld(c, node, Live(h, v));
    }
    if Agrees(h, v, c, node) {
      assert forall n :: HeldAs(c, node, Live(h, v), n);
    }
    assert (forall i :: 0 <= i < |report| ==> EntryHeals(view.cache, node, report[i])) <==>
           NothingDropped(view.cache, node, report) && NoneNewer(view.cache, node, report);
  }

  /** A cache that holds nothing past the revision of a full state holds none of its pods at a later version. */
  lemma UpToIsNoneNewer(h: History, view: View, node: string, v: nat, report: seq<Entry>)
    requires Sane(h, view, node) && v <= |h| && HonestReport(h, v, report) && UpTo(view.cache, node, v)
    ensures NoneNewer(view.cache, node, report)
  {
    forall i | 0 <= i < |report|
      ensures !HeldNewer(view.cache, node, report[i].pod)
    {
      var n := report[i].pod.name;
      assert HonestEntry(h, v, report[i]);
      if n in HeldFor(view.cache, node) {
        assert HeldFor(view.cache, node)[n] <= v;
        assert Traceable(h, view, node, n);
        if n in NodeAt(h, v) { VersionIsLast(h, v, n); }
      }
    }
  }

  lemma SameHeld(c: Cache, node: string, live: map<string, int>)
    requires forall n :: HeldAs(c, node, live, n)
    ensures HeldFor(c, node) == live
  {
    forall n
      ensures (n in HeldFor(c, node) <==> n in live) && (n in live ==> HeldFor(c, node)[n] == live[n])
    {
      assert HeldAs(c, node, live, n);
    }
  }

  // ---------- One change ----------

  /** A change leaves the node's other pods alone. */
  lemma LiveElsewhere(h: History, v: nat, n: string)
    requires 0 < v <= |h| && !IsChange(h, v, n)
    ensures (n in Live(h, v) <==> n in Live(h, v - 1)) && (n in Live(h, v) ==> Live(h, v)[n] == Live(h, v - 1)[n])
  {
  }

  lemma LiveUpTo(h: History, v: nat, n: string)
    requires v <= |h| && n in Live(h, v)
    ensures 0 < Live(h, v)[n] <= v
  {
    VersionIsLast(h, v, n);
  }

  /** Taking the change again, or the next one, keeps the core in step with the node, exactly if it is not dropped. */
  lemma PodStateKeeps(h: History, view: View, node: string, r: nat, m: Message, now: int)
    requires Proper(h) && Sane(h, view, node) && r <= |h| && Agrees(h, r, view.cache, node)
    requires Honest(h, m) && m.PodState? && (m.revision == r || m.revision == r + 1)
    ensures Agrees(h, m.revision, Report(view, node, m.pod, m.rpc, now).cache, node) <==>
            !Dropped(view.cache, node, m.pod, m.rpc)
  {
    var v, name := m.revision, m.pod.name;
    var c := Report(view, node, m.pod, m.rpc, now).cache;
    forall n | n != name
      ensures HeldAs(c, node, Live(h, v), n)
    {
      if v == r + 1 { LiveElsewhere(h, v, n); }
      assert n in HeldFor(c, node) <==> n in HeldFor(view.cache, node);
    }
    ChangedPod(h, view, node, r, m, now);
    if !Dropped(view.cache, node, m.pod, m.rpc) {
      SameHeld(c, node, Live(h, v));
    }
  }

  lemma ChangedPod(h: History, view: View, node: string, r: nat, m: Message, now: int)
    requires Proper(h) && Sane(h, view, node) && r <= |h| && Agrees(h, r, view.cache, node)
    requires Honest(h, m) && m.PodState? && (m.revision == r || m.revision == r + 1)
    ensures HeldAs(Report(view, node, m.pod, m.rpc, now).cache, node, Live(h, m.revision), m.pod.name) <==>
            !Dropped(view.cache, node, m.pod, m.rpc)
  {
    hide HeldFor, Live, Upsert;
    var n := m.pod.name;
    assert NumberedBy(h, |h|, n);
    LiveAfterChange(h, m.revision, n);
    HeldIff(view.cache, node, n);
    HeldIff(Report(view, node, m.pod, m.rpc, now).cache, node, n);
    UpsertAt(view.cache, node, m.pod, m.rpc, now);
    if n in view.cache {
      assert Traceable(h, view, node, n);
      if n in HeldFor(view.cache, node) {
        LiveUpTo(h, r, n);
      }
    }
  }

  lemma HeldIff(c: Cache, node: string, n: string)
    ensures n in HeldFor(c, node) <==> n in c && c[n].nodeId == node && c[n].pod.version > 0
    ensures n in HeldFor(c, node) ==> HeldFor(c, node)[n] == c[n].pod.version
  {
  }

  lemma LiveAfterChange(h: History, v: nat, n: string)
    requires Proper(h) && IsChange(h, v, n)
    ensures n in Live(h, v) <==> !h[v - 1].terminated
    ensures n in Live(h, v) ==> Live(h, v)[n] == v
  {
  }

  lemma UpsertAt(c: Cache, node: string, pod: Pod, rpc: bool, now: int)
    ensures var d := Upsert(c, node, pod, rpc, now);
            if pod.name in c && (!Newer(c, pod) || Dropped(c, node, pod, rpc)) then d == c
            else (pod.name in d <==> !Terminated(pod)) &&
                 (pod.name in d ==> d[pod.name].nodeId == node && d[pod.name].pod.version == pod.version)
  {
  }

  // ---------- Whole runs ----------

  datatype Delivery = Delivery(message: Message, now: int)

  function Run(core: Core, node: string, run: seq<Delivery>): Core
    decreases |run|
  {
    if run == [] then core
    else
      var last := run[|run| - 1];
      Deliver(Run(core, node, run[..|run| - 1]), node, last.message, last.now)
  }

  ghost predicate AllHonest(h: History, run: seq<Delivery>) {
    forall k :: 0 <= k < |run| ==> Honest(h, run[k].message)
  }

  /** A core that has heard nothing of the node yet. */
  ghost predicate Unaware(h: History, core: Core, node: string) {
    && core.revision == None && core.view.known == {}
    && forall n :: n in core.view.cache ==>
         && core.view.cache[n].pod.name == n
         && (core.view.cache[n].pod.version > 0 ==> core.view.cache[n].nodeId != node && !NumberedBy(h, |h|, n))
  }

  lemma {:induction false} RunSane(h: History, core: Core, node: string, run: seq<Delivery>)
    requires Unaware(h, core, node) && AllHonest(h, run)
    ensures Sane(h, Run(core, node, run).view, node)
    decreases |run|
  {
    if run == [] {
      forall n | n in core.view.cache
        ensures Traceable(h, core.view, node, n)
      {
      }
    } else {
      var last := run[|run| - 1];
      RunSane(h, core, node, run[..|run| - 1]);
      DeliverSane(h, Run(core, node, run[..|run| - 1]), node, last.message, last.now);
    }
  }

  /** A report caches no version but its own. */
  lemma ReportUpTo(view: View, node: string, pod: Pod, rpc: bool, now: int, v: int)
    requires UpTo(view.cache, node, v) && pod.version <= v
    ensures UpTo(Report(view, node, pod, rpc, now).cache, node, v)
  {
    var c := Report(view, node, pod, rpc, now).cache;
    forall n | n in HeldFor(c, node)
      ensures HeldFor(c, node)[n] <= v
    {
      if c[n].pod.version != pod.version { assert n in HeldFor(view.cache, node); }
    }
  }

  lemma {:induction false} ReportAllUpTo(view: View, node: string, report: seq<Entry>, now: int, v: int)
    requires UpTo(view.cache, node, v) && forall i :: 0 <= i < |report| ==> report[i].pod.version <= v
    ensures UpTo(ReportAll(view, node, report, now).cache, node, v)
    decreases |report|
  {
    if report != [] {
      var rest, last := report[..|report| - 1], report[|report| - 1];
      ReportAllUpTo(view, node, rest, now, v);
      ReportUpTo(ReportAll(view, node, rest, now), node, last.pod, last.rpc, now, v);
    }
  }

  lemma DeliverUpTo(h: History, core: Core, node: string, m: Message, now: int, v: int)
    requires Honest(h, m) && m.revision <= v && UpTo(core.view.cache, node, v)
    ensures UpTo(Deliver(core, node, m, now).view.cache, node, v)
  {
    match m
    case FullState(_, report) =>
      forall i | 0 <= i < |report|
        ensures report[i].pod.version <= v
      {
        EntryIsHonest(h, m.revision, report[i]);
      }
      ReportAllUpTo(core.view, node, report, now, v);
      var c, d := ReportAll(core.view, node, report, now).cache, Sync(core.view, node, report, now).cache;
      assert forall n :: n in HeldFor(d, node) ==> n in HeldFor(c, node) && HeldFor(c, node)[n] == HeldFor(d, node)[n];
    case PodState(_, pod, rpc, _) => ReportUpTo(core.view, node, pod, rpc, now, v);
    case _ =>
  }

  ghost predicate RevisionsUpTo(run: seq<Delivery>, v: int) {
    forall k :: 0 <= k < |run| ==> run[k].message.revision <= v
  }

  lemma {:induction false} RunUpTo(h: History, core: Core, node: string, run: seq<Delivery>, v: int)
    requires Unaware(h, core, node) && AllHonest(h, run) && RevisionsUpTo(run, v)
    ensures UpTo(Run(core, node, run).view.cache, node, v)
    ensures Run(core, node, run).revision.Some? ==> Run(core, node, run).revision.value <= v
    decreases |run|
  {
    if run == [] {
      assert forall n :: n !in HeldFor(core.view.cache, node);
    } else {
      var last := run[|run| - 1];
      RunUpTo(h, core, node, run[..|run| - 1], v);
      DeliverUpTo(h, Run(core, node, run[..|run| - 1]), node, last.message, last.now, v);
    }
  }

  /**
    After any messages, lost, repeated or reordered, with registrations and late full states that made
    the core go back, and whatever calls failed: a full state no older than any of them is accepted, and
    makes the core agree with the node exactly if nothing in it is dropped.
   */
  lemma CatchesUp(h: History, core: Core, node: string, run: seq<Delivery>, m: Message, now: int)
    requires Unaware(h, core, node) && AllHonest(h, run)
    requires Honest(h, m) && m.FullState? && RevisionsUpTo(run, m.revision)
    ensures Accepts(Run(core, node, run).revision, m)
    ensures Agrees(h, m.revision, Deliver(Run(core, node, run), node, m, now).view.cache, node) <==>
            NothingDropped(Run(core, node, run).view.cache, node, m.report)
  {
    var was := Run(core, node, run);
    RunSane(h, core, node, run);
    RunUpTo(h, core, node, run, m.revision);
    UpToIsNoneNewer(h, was.view, node, m.revision, m.report);
    FullStateHeals(h, was.view, node, m.revision, m.report, now);
  }

  // ---------- In step ----------

  ghost predicate InStep(h: History, core: Core, node: string) {
    && Sane(h, core.view, node)
    && core.revision.Some? && 0 <= core.revision.value <= |h|
    && Agrees(h, core.revision.value, core.view.cache, node)
  }

  /** The last change of the pod up to a revision is to a running state. */
  ghost predicate Runs(h: History, v: int, n: string) {
    exists w :: 0 < w <= v && IsChange(h, w, n) && !h[w - 1].terminated && forall x :: w < x <= v ==> !IsChange(h, x, n)
  }

  lemma {:induction false} LiveIsRunning(h: History, v: nat, n: string)
    requires Proper(h) && v <= |h|
    ensures n in Live(h, v) <==> Runs(h, v, n)
  {
    if v > 0 {
      if IsChange(h, v, n) {
        LiveAfterChange(h, v, n);
        if !h[v - 1].terminated { assert Runs(h, v, n); }
      } else {
        LiveIsRunning(h, v - 1, n);
        LiveElsewhere(h, v, n);
        RunsOn(h, v, n);
      }
    }
  }

  lemma RunsOn(h: History, v: nat, n: string)
    requires 0 < v <= |h| && !IsChange(h, v, n)
    ensures Runs(h, v, n) <==> Runs(h, v - 1, n)
  {
    if w :| 0 < w <= v - 1 && IsChange(h, w, n) && !h[w - 1].terminated
            && forall x :: w < x <= v - 1 ==> !IsChange(h, x, n) {
      assert forall x :: w < x <= v ==> !IsChange(h, x, n);
    }
    if w :| 0 < w <= v && IsChange(h, w, n) && !h[w - 1].terminated && forall x :: w < x <= v ==> !IsChange(h, x, n) {
      assert forall x :: w < x <= v - 1 ==> !IsChange(h, x, n);
    }
  }

  /** Between the two revisions only pods changed that run at neither of them. */
  ghost predicate OnlyStopped(h: History, a: int, b: int) {
    forall w, n :: Min(a, b) < w <= (if a <= b then b else a) && IsChange(h, w, n) ==> !Runs(h, a, n) && !Runs(h, b, n)
  }

  lemma {:induction false} LiveBetween(h: History, lo: nat, hi: nat, n: string)
    requires lo <= hi <= |h| && forall w :: lo < w <= hi ==> !IsChange(h, w, n)
    ensures (n in Live(h, lo) <==> n in Live(h, hi)) && (n in Live(h, lo) ==> Live(h, lo)[n] == Live(h, hi)[n])
    decreases hi
  {
    if lo < hi {
      LiveElsewhere(h, hi, n);
      LiveBetween(h, lo, hi - 1, n);
    }
  }

  /** The node has the same pods at two revisions exactly if only pods changed in between that run at neither. */
  lemma SamePodsIff(h: History, lo: nat, hi: nat)
    requires Proper(h) && lo <= hi <= |h|
    ensures Live(h, lo) == Live(h, hi) <==> OnlyStopped(h, lo, hi)
  {
    hide Live, Runs;
    forall n
      ensures (n in Live(h, lo) <==> Runs(h, lo, n)) && (n in Live(h, hi) <==> Runs(h, hi, n))
    {
      LiveIsRunning(h, lo, n);
      LiveIsRunning(h, hi, n);
    }
    if OnlyStopped(h, lo, hi) {
      forall n
        ensures (n in Live(h, lo) <==> n in Live(h, hi)) && (n in Live(h, lo) ==> Live(h, lo)[n] == Live(h, hi)[n])
      {
        if forall w :: lo < w <= hi ==> !IsChange(h, w, n) { LiveBetween(h, lo, hi, n); }
      }
    } else {
      var w, n :| lo < w <= hi && IsChange(h, w, n) && (Runs(h, lo, n) || Runs(h, hi, n));
      if n in Live(h, lo) && n in Live(h, hi) {
        LiveUpTo(h, lo, n);
        LastChange(h, hi, w, n);
      }
    }
  }

  lemma LastChange(h: History, v: nat, w: nat, n: string)
    requires w <= v <= |h| && IsChange(h, w, n) && n in Live(h, v)
    ensures w <= Live(h, v)[n]
  {
    VersionIsLast(h, v, n);
  }

  /** A registration that moves the revision leaves the pods behind. */
  lemma RegistrationBreaksStep(h: History, core: Core, node: string, v: nat, now: int)
    requires Proper(h) && InStep(h, core, node) && v <= |h|
    ensures InStep(h, Deliver(core, node, Registry(v), now), node) <==> OnlyStopped(h, v, core.revision.value)
  {
    hide Live, Runs;
    var r := core.revision.value;
    if v <= r {
      SamePodsIff(h, v, r);
    } else {
      SamePodsIff(h, r, v);
      assert OnlyStopped(h, v, r) <==> OnlyStopped(h, r, v);
    }
  }

  /** What keeps a core in step, message by message. */
  ghost predicate Kept(h: History, core: Core, node: string, m: Message) {
    Accepts(core.revision, m) ==>
      match m
      case Registry(v) => core.revision.Some? && OnlyStopped(h, v, core.revision.value)
      case FullState(_, report) =>
        NothingDropped(core.view.cache, node, report) && NoneNewer(core.view.cache, node, report)
      case PodState(_, pod, rpc, _) => !Dropped(core.view.cache, node, pod, rpc)
      case SessionState(_, _, _) => true
  }

  /** A message keeps a core in step exactly under that condition. */
  lemma DeliverInStepIff(h: History, core: Core, node: string, m: Message, now: int)
    requires Proper(h) && InStep(h, core, node) && Honest(h, m)
    ensures InStep(h, Deliver(core, node, m, now), node) <==> Kept(h, core, node, m)
  {
    hide OnlyStopped, NothingDropped, NoneNewer, Dropped, Live, Runs;
    var r := core.revision.value;
    DeliverSane(h, core, node, m, now);
    if Accepts(core.revision, m) {
      match m
      case FullState(v, report) => FullStateHeals(h, core.view, node, v, report, now);
      case PodState(v, pod, rpc, _) => PodStateKeeps(h, core.view, node, r, m, now);
      case SessionState(v, _, _) => NothingChanged(h, v, r);
      case Registry(v) => RegistrationBreaksStep(h, core, node, v, now);
    }
  }

  lemma NothingChanged(h: History, v: nat, r: nat)
    requires 0 < v <= |h| && h[v - 1].OtherChange? && (v == r || v == r + 1)
    ensures Live(h, v) == Live(h, r)
  {
    assert v == r + 1 ==> NodeAt(h, v) == NodeAt(h, r);
  }

  /** The core is in step after every part of the run. */
  ghost predicate InStepAlong(h: History, core: Core, node: string, run: seq<Delivery>) {
    forall k :: 0 <= k <= |run| ==> InStep(h, Run(core, node, run[..k]), node)
  }

  /** Every message of the run meets the condition when it comes. */
  ghost predicate KeptAlong(h: History, core: Core, node: string, run: seq<Delivery>) {
    forall k :: 0 <= k < |run| ==> Kept(h, Run(core, node, run[..k]), node, run[k].message)
  }

  lemma AlongSnoc(h: History, core: Core, node: string, run: seq<Delivery>)
    requires run != []
    ensures var front, last := run[..|run| - 1], run[|run| - 1];
            && (InStepAlong(h, core, node, run) <==>
                InStepAlong(h, core, node, front) && InStep(h, Run(core, node, run), node))
            && (KeptAlong(h, core, node, run) <==>
                KeptAlong(h, core, node, front) && Kept(h, Run(core, node, front), node, last.message))
            && (InStepAlong(h, core, node, front) ==> InStep(h, Run(core, node, front), node))
  {
    hide InStep, Kept, Run;
    var n := |run| - 1;
    var front := run[..n];
    assert front[..n] == front && run[..n + 1] == run;
    assert forall k :: 0 <= k <= n ==> front[..k] == run[..k];
    assert forall k :: 0 <= k < n ==> front[k] == run[k];
  }

  /** A core in step is in step all along a run exactly if every message of the run keeps it so. */
  lemma {:induction false} StaysInStepIff(h: History, core: Core, node: string, run: seq<Delivery>)
    requires Proper(h) && InStep(h, core, node) && AllHonest(h, run)
    ensures InStepAlong(h, core, node, run) <==> KeptAlong(h, core, node, run)
    decreases |run|
  {
    if run == [] {
      assert run[..0] == [];
    } else {
      hide InStep, Kept, Honest, Deliver, InStepAlong, KeptAlong;
      var front, last := run[..|run| - 1], run[|run| - 1];
      StaysInStepIff(h, core, node, front);
      AlongSnoc(h, core, node, run);
      if InStepAlong(h, core, node, front) {
        DeliverInStepIff(h, Run(core, node, front), node, last.message, last.now);
      }
    }
  }

  /** Changes that come in order from the core's revision on, none missing. */
  ghost predicate InOrder(run: seq<Delivery>, r: int) {
    forall k :: 0 <= k < |run| ==> Incremental(run[k].message) && run[k].message.revision == r + 1 + k
  }

  /** Such a run takes the core's revision along, message by message. */
  lemma {:induction false} RevisionFollows(core: Core, node: string, run: seq<Delivery>, r: int)
    requires core.revision == Some(r) && InOrder(run, r)
    ensures Run(core, node, run).revision == Some(r + |run|)
    decreases |run|
  {
    if run != [] {
      RevisionFollows(core, node, run[..|run| - 1], r);
    }
  }

  lemma NoneFails(h: History, core: Core, node: string, run: seq<Delivery>)
    requires forall k :: 0 <= k < |run| ==> Incremental(run[k].message)
    requires forall k :: 0 <= k < |run| && run[k].message.PodState? ==> run[k].message.rpc
    ensures KeptAlong(h, core, node, run)
  {
    hide Run, Accepts, Newer, AsksAgain;
  }

  /** A core in step that gets the changes that follow, in order, with no call failing, follows the node. */
  lemma FollowsHistory(h: History, core: Core, node: string, run: seq<Delivery>)
    requires Proper(h) && InStep(h, core, node) && AllHonest(h, run) && InOrder(run, core.revision.value)
    requires forall k :: 0 <= k < |run| && run[k].message.PodState? ==> run[k].message.rpc
    ensures var end := core.revision.value + |run|;
            && InStepAlong(h, core, node, run)
            && Run(core, node, run).revision == Some(end) && end <= |h|
            && Agrees(h, end, Run(core, node, run).view.cache, node)
  {
    hide InStep, Agrees, Kept, Run, Proper, AllHonest, KeptAlong, Honest;
    StepIs(h, core, node);
    RevisionFollows(core, node, run, core.revision.value);
    NoneFails(h, core, node, run);
    StaysInStepIff(h, core, node, run);
    assert run[..|run|] == run;
    StepIs(h, Run(core, node, run), node);
  }

  lemma StepIs(h: History, core: Core, node: string)
    requires InStep(h, core, node)
    ensures core.revision.Some? && 0 <= core.revision.value <= |h|
    ensures Agrees(h, core.revision.value, core.view.cache, node)
  {
  }

  /**
    After any messages, a full state no older than any of them in which nothing is dropped, and then the rest of the
    history in order with no call failing: the core has the node's pods at the end of the history.
   */
  lemma CatchesUpToEnd(h: History, core: Core, node: string, before: seq<Delivery>, full: Delivery, rest: seq<Delivery>)
    requires Proper(h) && Unaware(h, core, node) && AllHonest(h, before) && AllHonest(h, rest)
    requires Honest(h, full.message) && full.message.FullState? && RevisionsUpTo(before, full.message.revision)
    requires NothingDropped(Run(core, node, before).view.cache, node, full.message.report)
    requires InOrder(rest, full.message.revision) && full.message.revision + |rest| == |h|
    requires forall k :: 0 <= k < |rest| && rest[k].message.PodState? ==> rest[k].message.rpc
    ensures var end := Run(Deliver(Run(core, node, before), node, full.message, full.now), node, rest);
            end.revision == Some(|h|) && Agrees(h, |h|, end.view.cache, node)
  {
    hide NothingDropped, Agrees, Sync, Live;
    var mid := Run(core, node, before);
    CatchesUp(h, core, node, before, full.message, full.now);
    RunSane(h, core, node, before);
    DeliverSane(h, mid, node, full.message, full.now);
    FollowsHistory(h, Deliver(mid, node, full.message, full.now), node, rest);
  }

  /** A first full state that comes again late: the core goes back to revision 1, but its pod does not. */
  lemma LateFirstStateBreaksStep(node: string, name: string, pod: Pod, first: Pod, now: int)
    requires pod == Pod(name, 2, Running, None, None) && first == Pod(name, 1, Running, None, None)
    ensures var h := [PodChange(name, false, false), PodChange(name, false, false)];
            var core := Core(Some(2), View(map[name := Held(pod, node)], {name}));
            var m := FullState(1, [Entry(first, true, [])]);
            && InStep(h, core, node) && Honest(h, m) && Accepts(core.revision, m)
            && !InStep(h, Deliver(core, node, m, now), node)
  {
    var h := [PodChange(name, false, false), PodChange(name, false, false)];
    var view := View(map[name := Held(pod, node)], {name});
    var report := [Entry(first, true, [])];
    assert NodeAt(h, 1) == map[name := Stat(1, false)];
    assert NodeAt(h, 2) == map[name := Stat(2, false)];
    assert IsChange(h, 2, name);
    assert HeldFor(view.cache, node)[name] == 2;
    assert HeldFor(view.cache, node) == Live(h, 2);
    assert report[0] in report;
    assert HeldNewer(view.cache, node, report[0].pod);
    FullStateHeals(h, view, node, 1, report, now);
  }

  // ---------- The core's handlers do this ----------

  ghost function CoreOf(monitor: NodeMonitor, node: string): Core
    reads monitor, monitor.nodeManager, monitor.nodeManager.podManager
  {
    Core(monitor.Revision(node),
         View(monitor.nodeManager.podManager.pods,
              if node in monitor.nodeManager.nodes then monitor.nodeManager.nodes[node] else {}))
  }

  method Receive(monitor: NodeMonitor, node: string, m: Message, now: int)
    requires monitor.Valid()
    modifies monitor, monitor.nodeManager, monitor.nodeManager.podManager
    ensures monitor.Valid() && CoreOf(monitor, node) == Deliver(old(CoreOf(monitor, node)), node, m, now)
  {
    hide PodManager.Valid, Sync, Report, Forwarded, ForwardedAll;
    match m
    case Registry(v) => monitor.OnRegistry(node, v);
    case FullState(v, report) => monitor.UpdateOrCreateNode(node, v, report, now);
    case PodState(v, pod, rpc, sessions) => var _ := monitor.OnPodStateUpdate(node, v, pod, sessions, rpc, now);
    case SessionState(v, podName, session) => var _ := monitor.OnSessionUpdate(node, v, podName, session);
  }
}
