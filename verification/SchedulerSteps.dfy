/**
  Pods scheduled in parallel. Each pod's routine takes the lock of one chunk at a time, looks at the
  chunk's nodes one by one, admits, asks the node, and rolls back if it refuses, while other routines
  work on other chunks and ending pods give their resources back without any lock.
 */
module SchedulerSteps {
  import opened Common
  import opened Scheduler

  type NodeId = string
  type PodId = string

  /** Nodes with their capacity and their chunk, and what each pod requests. */
  datatype Cluster = Cluster(capacity: map<NodeId, Resources>, chunk: map<NodeId, nat>, request: map<PodId, Resources>)

  ghost predicate Sound(k: Cluster) {
    && k.chunk.Keys == k.capacity.Keys
    && (forall n :: n in k.capacity ==> NonNegative(k.capacity[n]))
    && (forall p :: p in k.request ==> NonNegative(k.request[p]))
  }

  /** Where a pod's routine is. In the three middle places it holds the lock of its chunk. */
  datatype Place =
    | Waiting
    | Looking(chunk: nat, todo: set<NodeId>, available: set<NodeId>)
    | Choosing(chunk: nat, available: set<NodeId>)
    | Asking(chunk: nat, node: NodeId, available: set<NodeId>)
    | Bound(node: NodeId)
    | Over

  /** The chunk whose lock a routine holds. */
  function LockOf(w: Place): Option<nat> {
    if w.Looking? || w.Choosing? || w.Asking? then Some(w.chunk) else None
  }

  predicate On(w: Place, n: NodeId) { (w.Asking? || w.Bound?) && w.node == n }

  datatype State = State(place: map<PodId, Place>, occupied: map<NodeId, Resources>)

  datatype Action =
    | Lock(pod: PodId, chunk: nat)
    | Look(pod: PodId, node: NodeId)
    | Choose(pod: PodId)
    | Admit(pod: PodId, node: NodeId)
    | Accept(pod: PodId)
    | Refuse(pod: PodId)
    | Leave(pod: PodId)
    | Finish(pod: PodId)

  ghost function Members(k: Cluster, c: nat): set<NodeId> {
    set n | n in k.chunk && k.chunk[n] == c
  }

  ghost predicate Enabled(k: Cluster, s: State, a: Action) {
    && a.pod in s.place && a.pod in k.request
    && var w := s.place[a.pod];
       match a
       case Lock(_, c) => w.Waiting? && forall p :: p in s.place ==> LockOf(s.place[p]) != Some(c)
       case Look(_, n) => w.Looking? && n in w.todo && n in s.occupied && n in k.capacity
       case Choose(_) => w.Looking?
       case Admit(_, n) => w.Choosing? && n in w.available && n in s.occupied
       case Accept(_) => w.Asking?
       case Refuse(_) => w.Asking? && w.node in s.occupied
       case Leave(_) => w.Choosing? && w.available == {}
       case Finish(_) => w.Bound? && w.node in s.occupied
  }

  ghost function Next(k: Cluster, s: State, a: Action): State
    requires Enabled(k, s, a)
  {
    var p, w, r := a.pod, s.place[a.pod], k.request[a.pod];
    match a
    case Lock(_, c) => s.(place := s.place[p := Looking(c, Members(k, c), {})])
    case Look(_, n) =>
      s.(place := s.place[p := Looking(w.chunk, w.todo - {n},
                                       if Fits(k.capacity[n], s.occupied[n], r) then w.available + {n}
                                       else w.available)])
    case Choose(_) => s.(place := s.place[p := Choosing(w.chunk, w.available)])
    case Admit(_, n) =>
      State(s.place[p := Asking(w.chunk, n, w.available - {n})], s.occupied[n := Clamp(Plus(s.occupied[n], r))])
    case Accept(_) => s.(place := s.place[p := Bound(w.node)])
    case Refuse(_) =>
      State(s.place[p := Choosing(w.chunk, w.available)], s.occupied[w.node := Clamp(Minus(s.occupied[w.node], r))])
    case Leave(_) => s.(place := s.place[p := Waiting])
    case Finish(_) =>
      State(s.place[p := Over], s.occupied[w.node := Clamp(Minus(s.occupied[w.node], r))])
  }

  // ---------- Sums of requests ----------

  ghost function Any(pods: set<PodId>): (p: PodId)
    requires pods != {}
    ensures p in pods
  {
    var p :| p in pods;
    p
  }

  function Share(request: map<PodId, Resources>, p: PodId): Resources {
    if p in request then request[p] else Resources(0, 0)
  }

  ghost function Total(request: map<PodId, Resources>, pods: set<PodId>): Resources {
    if pods == {} then Resources(0, 0)
    else Plus(Share(request, Any(pods)), Total(request, pods - {Any(pods)}))
  }

  /** The order of summation does not matter. */
  lemma {:induction false} TotalWithout(request: map<PodId, Resources>, pods: set<PodId>, p: PodId)
    requires p in pods
    ensures Total(request, pods) == Plus(Share(request, p), Total(request, pods - {p}))
    decreases |pods|
  {
    hide Share;
    var q := Any(pods);
    if q != p {
      var rest := pods - {p} - {q};
      assert Total(request, pods - {q}) == Plus(Share(request, p), Total(request, rest)) by {
        TotalWithout(request, pods - {q}, p);
        assert pods - {q} - {p} == rest;
      }
      assert Total(request, pods - {p}) == Plus(Share(request, q), Total(request, rest)) by {
        TotalWithout(request, pods - {p}, q);
      }
    }
  }

  lemma {:induction false} TotalNonNegative(request: map<PodId, Resources>, pods: set<PodId>)
    requires forall p :: p in request ==> NonNegative(request[p])
    ensures NonNegative(Total(request, pods))
    decreases |pods|
  {
    if pods != {} {
      TotalNonNegative(request, pods - {Any(pods)});
    }
  }

  ghost function Load(k: Cluster, s: State, n: NodeId): Resources {
    Total(k.request, Guests(s, n))
  }

  /** The pods whose request a node carries: bound to it, or admitted and asked for. */
  ghost function Guests(s: State, n: NodeId): set<PodId> {
    set p | p in s.place && On(s.place[p], n)
  }

  // ---------- The invariant ----------

  /** Each node carries exactly the requests of its guests. */
  ghost predicate Accounted(k: Cluster, s: State) {
    && s.occupied.Keys == k.capacity.Keys
    && s.place.Keys <= k.request.Keys
    && (forall p :: p in s.place && (s.place[p].Asking? || s.place[p].Bound?) ==> s.place[p].node in k.capacity)
    && forall n :: n in s.occupied ==> s.occupied[n] == Load(k, s, n)
  }

  ghost predicate NotOvercommitted(k: Cluster, s: State) {
    forall n :: n in s.occupied && n in k.capacity ==> Within(s.occupied[n], k.capacity[n])
  }

  /** Two routines do not hold the lock of the same chunk. */
  ghost predicate Exclusive(s: State) {
    forall p, q :: p in s.place && q in s.place && p != q && LockOf(s.place[p]).Some? ==>
      LockOf(s.place[p]) != LockOf(s.place[q])
  }

  /** What a routine found in its chunk is still good. */
  ghost predicate Promised(k: Cluster, s: State, p: PodId)
    requires p in s.place
  {
    var w := s.place[p];
    && (w.Looking? ==> w.todo <= Members(k, w.chunk))
    && (w.Asking? ==> w.node in Members(k, w.chunk) && w.node !in w.available)
    && (w.Looking? || w.Choosing? || w.Asking? ==>
          forall n :: n in w.available ==>
            n in Members(k, w.chunk) && n in s.occupied && n in k.capacity && p in k.request &&
            Fits(k.capacity[n], s.occupied[n], k.request[p]))
  }

  ghost predicate Inv(k: Cluster, s: State) {
    Accounted(k, s) && NotOvercommitted(k, s) && Exclusive(s) && forall p :: p in s.place ==> Promised(k, s, p)
  }

  // ---------- Every step keeps it ----------

  /** A step moves one pod, and changes what one node carries, at most. */
  lemma StepFrame(k: Cluster, s: State, a: Action)
    requires Enabled(k, s, a)
    ensures var s' := Next(k, s, a);
            && s'.place == s.place[a.pod := s'.place[a.pod]]
            && s'.occupied.Keys == s.occupied.Keys
  {
  }

  lemma GuestsMoved(s: State, t: State, p: PodId, n: NodeId)
    requires p in s.place && p in t.place && t.place == s.place[p := t.place[p]]
    ensures Guests(t, n) == if On(t.place[p], n) then Guests(s, n) + {p} else Guests(s, n) - {p}
  {
  }

  lemma CarriesMore(k: Cluster, s: State, n: NodeId, p: PodId)
    requires Sound(k) && p in k.request && p !in Guests(s, n)
    ensures Total(k.request, Guests(s, n) + {p}) == Clamp(Plus(Load(k, s, n), k.request[p]))
  {
    hide Total;
    TotalWithout(k.request, Guests(s, n) + {p}, p);
    assert Guests(s, n) + {p} - {p} == Guests(s, n);
    TotalNonNegative(k.request, Guests(s, n));
  }

  lemma CarriesLess(k: Cluster, s: State, n: NodeId, p: PodId)
    requires Sound(k) && p in k.request && p in Guests(s, n)
    ensures Total(k.request, Guests(s, n) - {p}) == Clamp(Minus(Load(k, s, n), k.request[p]))
    ensures Within(Total(k.request, Guests(s, n) - {p}), Load(k, s, n))
  {
    hide Total;
    TotalWithout(k.request, Guests(s, n), p);
    TotalNonNegative(k.request, Guests(s, n) - {p});
  }

  lemma AccountedKept(k: Cluster, s: State, a: Action)
    requires Sound(k) && Inv(k, s) && Enabled(k, s, a)
    ensures Accounted(k, Next(k, s, a))
  {
    hide Total, NotOvercommitted, Exclusive;
    var t, p := Next(k, s, a), a.pod;
    StepFrame(k, s, a);
    assert Promised(k, s, p);
    forall n | n in t.occupied
      ensures t.occupied[n] == Load(k, t, n)
    {
      GuestsMoved(s, t, p, n);
      assert s.occupied[n] == Load(k, s, n);
      if On(t.place[p], n) && !On(s.place[p], n) {
        CarriesMore(k, s, n, p);
      } else if !On(t.place[p], n) && On(s.place[p], n) {
        CarriesLess(k, s, n, p);
      } else {
        assert Guests(t, n) == Guests(s, n);
      }
    }
  }

  /** Only an admission makes a node carry more, and then it is to a node of the chunk that was found to have room. */
  lemma CarriedMore(k: Cluster, s: State, a: Action, n: NodeId)
    requires Sound(k) && Inv(k, s) && Enabled(k, s, a) && n in s.occupied
    ensures n in Next(k, s, a).occupied
    ensures Within(Next(k, s, a).occupied[n], s.occupied[n]) ||
            (a.Admit? && a.node == n && LockOf(s.place[a.pod]) == Some(k.chunk[n]) &&
             Within(Next(k, s, a).occupied[n], k.capacity[n]))
  {
    hide Total, NotOvercommitted, Exclusive;
    var p := a.pod;
    assert Promised(k, s, p);
    assert s.occupied[n] == Load(k, s, n);
    TotalNonNegative(k.request, Guests(s, n));
    if a.Admit? && a.node == n {
      FitsStaysWithin(k.capacity[n], s.occupied[n], k.request[p]);
    }
  }

  lemma NotOvercommittedKept(k: Cluster, s: State, a: Action)
    requires Sound(k) && Inv(k, s) && Enabled(k, s, a)
    ensures NotOvercommitted(k, Next(k, s, a))
  {
    hide Next, Enabled, Load, Promised, Exclusive;
    var t := Next(k, s, a);
    StepFrame(k, s, a);
    forall n | n in t.occupied && n in k.capacity
      ensures Within(t.occupied[n], k.capacity[n])
    {
      CarriedMore(k, s, a, n);
    }
  }

  lemma LockKept(k: Cluster, s: State, a: Action)
    requires Enabled(k, s, a)
    ensures var w := LockOf(Next(k, s, a).place[a.pod]);
            w == None || w == LockOf(s.place[a.pod]) || (a.Lock? && w == Some(a.chunk))
  {
  }

  lemma ExclusiveKept(k: Cluster, s: State, a: Action)
    requires Inv(k, s) && Enabled(k, s, a)
    ensures Exclusive(Next(k, s, a))
  {
    hide Next, Accounted, NotOvercommitted, Promised, LockOf;
    StepFrame(k, s, a);
    LockKept(k, s, a);
  }

  lemma OthersPromised(k: Cluster, s: State, a: Action, q: PodId)
    requires Sound(k) && Inv(k, s) && Enabled(k, s, a) && q in s.place && q != a.pod
    ensures q in Next(k, s, a).place && Promised(k, Next(k, s, a), q)
  {
    hide Next, Accounted, NotOvercommitted, Fits;
    var t, w := Next(k, s, a), s.place[q];
    StepFrame(k, s, a);
    assert Promised(k, s, q);
    assert t.place[q] == w;
    if LockOf(w).Some? {
      forall n | n in w.available
        ensures Fits(k.capacity[n], t.occupied[n], k.request[q])
      {
        CarriedMore(k, s, a, n);
        FitsWhenLess(k.capacity[n], s.occupied[n], t.occupied[n], k.request[q]);
      }
    }
  }

  lemma SelfPromised(k: Cluster, s: State, a: Action)
    requires Sound(k) && Inv(k, s) && Enabled(k, s, a)
    ensures Promised(k, Next(k, s, a), a.pod)
  {
    hide Accounted, NotOvercommitted, Exclusive, Fits;
    assert Promised(k, s, a.pod);
  }

  lemma StepKeeps(k: Cluster, s: State, a: Action)
    requires Sound(k) && Inv(k, s) && Enabled(k, s, a)
    ensures Inv(k, Next(k, s, a))
  {
    hide Accounted, NotOvercommitted, Exclusive, Promised, Enabled, Next;
    AccountedKept(k, s, a);
    NotOvercommittedKept(k, s, a);
    ExclusiveKept(k, s, a);
    SelfPromised(k, s, a);
    StepFrame(k, s, a);
    forall q | q in Next(k, s, a).place
      ensures Promised(k, Next(k, s, a), q)
    {
      if q != a.pod { OthersPromised(k, s, a, q); }
    }
  }

  // ---------- Whole runs ----------

  ghost predicate CanRun(k: Cluster, s: State, run: seq<Action>)
    decreases |run|
  {
    run == [] || (Enabled(k, s, run[0]) && CanRun(k, Next(k, s, run[0]), run[1..]))
  }

  ghost function Run(k: Cluster, s: State, run: seq<Action>): State
    requires CanRun(k, s, run)
    decreases |run|
  {
    if run == [] then s else Run(k, Next(k, s, run[0]), run[1..])
  }

  /** Nothing scheduled yet. */
  function Start(k: Cluster): State {
    State(map p | p in k.request :: Waiting, map n | n in k.capacity :: Resources(0, 0))
  }

  lemma StartHolds(k: Cluster)
    requires Sound(k)
    ensures Inv(k, Start(k))
  {
    forall n | n in Start(k).occupied
      ensures Start(k).occupied[n] == Load(k, Start(k), n)
    {
      assert Guests(Start(k), n) == {};
    }
  }

  lemma {:induction false} RunKeeps(k: Cluster, s: State, run: seq<Action>)
    requires Sound(k) && Inv(k, s) && CanRun(k, s, run)
    ensures Inv(k, Run(k, s, run))
    decreases |run|
  {
    hide Inv, Enabled, Next;
    if run != [] {
      StepKeeps(k, s, run[0]);
      RunKeeps(k, Next(k, s, run[0]), run[1..]);
    }
  }

  /**
    However routines interleave, a node carries the requests of its guests, no more and no less, within its
    capacity.
   */
  lemma NeverOvercommitted(k: Cluster, run: seq<Action>, n: NodeId)
    requires Sound(k) && CanRun(k, Start(k), run) && n in k.capacity
    ensures var s := Run(k, Start(k), run);
            && n in s.occupied
            && s.occupied[n] == Total(k.request, Guests(s, n))
            && Within(Total(k.request, Guests(s, n)), k.capacity[n])
  {
    hide Enabled, Next, Total, Promised, Exclusive;
    StartHolds(k);
    RunKeeps(k, Start(k), run);
  }

  // ---------- A routine by itself ----------

  predicate Own(run: seq<Action>, p: PodId) { forall i :: 0 <= i < |run| ==> run[i].pod == p }

  /** Since `s`, only the pod's own steps: what it found fitted then, and it alone changed what its node carries. */
  ghost predicate Since(k: Cluster, s: State, t: State, p: PodId)
    requires p in s.place && p in k.request
  {
    && p in t.place && t.occupied.Keys == s.occupied.Keys
    && var w, r := t.place[p], k.request[p];
       && (forall n :: n in s.occupied ==> t.occupied[n] == if On(w, n) then Plus(s.occupied[n], r) else s.occupied[n])
       && (w.Looking? || w.Choosing? || w.Asking? ==> forall n :: n in w.available ==> Suits(k, s, p, n))
       && (w.Asking? || w.Bound? ==> Suits(k, s, p, w.node))
  }

  predicate Suits(k: Cluster, s: State, p: PodId, n: NodeId)
    requires p in k.request
  {
    n in s.occupied && n in k.capacity && Fits(k.capacity[n], s.occupied[n], k.request[p])
  }

  lemma OwnStep(k: Cluster, s: State, t: State, a: Action)
    requires Sound(k) && a.pod in s.place && a.pod in k.request && Enabled(k, t, a) && Since(k, s, t, a.pod)
    requires forall n :: n in s.occupied ==> NonNegative(s.occupied[n])
    ensures Since(k, s, Next(k, t, a), a.pod)
  {
    hide Fits;
    var r := k.request[a.pod];
    forall n | n in s.occupied
      ensures Clamp(Plus(s.occupied[n], r)) == Plus(s.occupied[n], r)
      ensures Clamp(Minus(Plus(s.occupied[n], r), r)) == s.occupied[n]
    {
    }
  }

  lemma {:induction false} OwnRun(k: Cluster, s: State, t: State, p: PodId, run: seq<Action>)
    requires Sound(k) && p in s.place && p in k.request && Since(k, s, t, p) && CanRun(k, t, run) && Own(run, p)
    requires forall n :: n in s.occupied ==> NonNegative(s.occupied[n])
    ensures Since(k, s, Run(k, t, run), p)
    decreases |run|
  {
    hide Since, Enabled, Next;
    if run != [] {
      OwnStep(k, s, t, run[0]);
      OwnRun(k, s, Next(k, t, run[0]), p, run[1..]);
    }
  }

  ghost predicate CanBindTo(k: Cluster, s: State, p: PodId, n: NodeId) {
    exists run :: Own(run, p) && CanRun(k, s, run) && p in Run(k, s, run).place && Run(k, s, run).place[p] == Bound(n)
  }

  /** Lock the chunk, look at the node, choose, admit, and be accepted. */
  lemma BindsTo(k: Cluster, s: State, p: PodId, n: NodeId) returns (run: seq<Action>)
    requires Sound(k) && p in s.place && p in k.request && s.place[p].Waiting? && n in k.chunk && Suits(k, s, p, n)
    requires forall q :: q in s.place ==> LockOf(s.place[q]) != Some(k.chunk[n])
    ensures Own(run, p) && CanRun(k, s, run) && p in Run(k, s, run).place && Run(k, s, run).place[p] == Bound(n)
  {
    hide Fits;
    run := [Lock(p, k.chunk[n]), Look(p, n), Choose(p), Admit(p, n), Accept(p)];
    var s1 := Next(k, s, run[0]);
    assert n in Members(k, k.chunk[n]);
    var s2 := Next(k, s1, run[1]);
    var s3 := Next(k, s2, run[2]);
    var s4 := Next(k, s3, run[3]);
    var s5 := Next(k, s4, run[4]);
    assert run[1..][1..] == [run[2], run[3], run[4]] && run[1..] == [run[1], run[2], run[3], run[4]];
    assert [run[2], run[3], run[4]][1..] == [run[3], run[4]] && [run[3], run[4]][1..] == [run[4]];
    assert [run[4]][1..] == [];
    assert CanRun(k, s5, []) && CanRun(k, s4, [run[4]]) && Run(k, s4, [run[4]]) == s5;
    assert CanRun(k, s3, [run[3], run[4]]) && Run(k, s3, [run[3], run[4]]) == s5;
    assert CanRun(k, s2, run[1..][1..]) && Run(k, s2, run[1..][1..]) == s5;
    assert CanRun(k, s1, run[1..]) && Run(k, s1, run[1..]) == s5;
  }

  /**
    A waiting pod's routine, left to itself, can bind the pod to a node of a chunk whose lock is free exactly if the
    pod fits the node.
   */
  lemma BindsExactlyWhen(k: Cluster, s: State, p: PodId, n: NodeId)
    requires Sound(k) && Inv(k, s) && p in s.place && p in k.request && s.place[p].Waiting?
    requires n in k.chunk && n in s.occupied && forall q :: q in s.place ==> LockOf(s.place[q]) != Some(k.chunk[n])
    ensures CanBindTo(k, s, p, n) <==> Fits(k.capacity[n], s.occupied[n], k.request[p])
  {
    hide Fits, Run, CanRun, Total, Promised, Exclusive;
    if Suits(k, s, p, n) {
      var run := BindsTo(k, s, p, n);
    }
    forall m | m in s.occupied
      ensures NonNegative(s.occupied[m])
    {
      LoadNonNegative(k, s, m);
    }
    if run :| Own(run, p) && CanRun(k, s, run) && p in Run(k, s, run).place && Run(k, s, run).place[p] == Bound(n) {
      OwnRun(k, s, s, p, run);
    }
  }

  lemma LoadNonNegative(k: Cluster, s: State, n: NodeId)
    requires Sound(k) && Accounted(k, s) && n in s.occupied
    ensures NonNegative(s.occupied[n])
  {
    TotalNonNegative(k.request, Guests(s, n));
  }

  /** A routine that holds a lock can always go on by itself until it gives the lock back. */
  lemma LockIsGivenBack(k: Cluster, s: State, p: PodId) returns (run: seq<Action>)
    requires Sound(k) && Inv(k, s) && p in s.place && LockOf(s.place[p]).Some?
    ensures CanRun(k, s, run) && p in Run(k, s, run).place && LockOf(Run(k, s, run).place[p]) == None
    decreases match s.place[p] case Looking(_, _, _) => 2 case Choosing(_, _) => 1 case _ => 0
  {
    assert Promised(k, s, p);
    var w := s.place[p];
    var a :=
      if w.Looking? then Choose(p)
      else if w.Asking? then Accept(p)
      else if w.available == {} then Leave(p)
      else (var n :| n in w.available; Admit(p, n));
    var t := Next(k, s, a);
    if LockOf(t.place[p]).Some? {
      StepKeeps(k, s, a);
      var rest := LockIsGivenBack(k, t, p);
      run := [a] + rest;
      assert run[1..] == rest;
    } else {
      run := [a];
      assert run[1..] == [];
      assert CanRun(k, t, []);
    }
  }
}
