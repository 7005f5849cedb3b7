/**
  The calls on the scheduler's two queues, step by step. Each queue has its own lock and a call takes them
  one after the other, so that other calls come in between.
 */
module QueueSteps {
  /** Where a call has got to. */
  datatype Place =
    | Adding(pod: string)        // about to take the pod off the retry queue
    | Replacing(pod: string)     // about to take an old copy off the active queue
    | Activating(pod: string)    // about to put the pod on the active queue
    | Stopping                   // about to set the flag
    | Announcing                 // about to wake the scheduler up
    | BackingOff(pod: string)    // about to take the pod off the active queue
    | Retrying(pod: string)      // about to put the pod on the retry queue
    | Removing(pod: string)      // about to take the pod off the active queue
    | RemovingRetry(pod: string) // about to take the pod off the retry queue

  type Caller = nat

  /** The scheduler polls pods, looks at the active queue under the lock of the condition, or waits on it. */
  datatype Poller = Free | Looked | Asleep | Ended

  datatype State = State(active: set<string>, retry: set<string>, calls: map<Caller, Place>, stopped: bool,
                         poller: Poller)

  datatype Action =
    | CallAdd(c: Caller, pod: string)
    | CallBackoff(c: Caller, pod: string)
    | CallRemove(c: Caller, pod: string)
    | CallStop(c: Caller)
    | Poll(pod: string)               // the scheduler takes a pod to schedule it
    | FindNothing                     // it finds none, or that it is to stop
    | Wait                            // it releases the lock and sleeps
    | Revive(c: Caller, pod: string)  // a pod due for a retry is taken, to be added
    | PutBack(c: Caller, pod: string) // a pod not due yet is taken, to be put back
    | Step(c: Caller)

  predicate Enabled(s: State, a: Action) {
    match a
    case CallAdd(c, _) => c !in s.calls
    case CallBackoff(c, _) => c !in s.calls
    case CallRemove(c, _) => c !in s.calls
    case CallStop(c) => c !in s.calls
    case Poll(n) => s.poller.Free? && !s.stopped && n in s.active
    case FindNothing => s.poller.Free? && (s.stopped || s.active == {})
    case Wait => s.poller.Looked?
    case Revive(c, n) => c !in s.calls && n in s.retry
    case PutBack(c, n) => c !in s.calls && n in s.retry
    case Step(c) => c in s.calls && (s.calls[c].Announcing? ==> !s.poller.Looked?)
  }

  function Take(s: State, a: Action): State
    requires Enabled(s, a)
  {
    match a
    case CallAdd(c, n) => s.(calls := s.calls[c := Adding(n)])
    case CallBackoff(c, n) => s.(calls := s.calls[c := BackingOff(n)])
    case CallRemove(c, n) => s.(calls := s.calls[c := Removing(n)])
    case CallStop(c) => s.(calls := s.calls[c := Stopping])
    case Poll(n) => s.(active := s.active - {n})
    case FindNothing => s.(poller := if s.stopped then Ended else Looked)
    case Wait => s.(poller := Asleep)
    case Revive(c, n) => s.(retry := s.retry - {n}, calls := s.calls[c := Adding(n)])
    case PutBack(c, n) => s.(retry := s.retry - {n}, calls := s.calls[c := Retrying(n)])
    case Step(c) =>
      match s.calls[c]
      case Adding(n) =>
        s.(retry := s.retry - {n}, calls := s.calls[c := if n in s.retry then Activating(n) else Replacing(n)])
      case Replacing(n) => s.(active := s.active - {n}, calls := s.calls[c := Activating(n)])
      case Activating(n) => s.(active := s.active + {n}, calls := s.calls[c := Announcing])
      case Stopping => s.(stopped := true, calls := s.calls[c := Announcing])
      case Announcing => s.(poller := if s.poller.Asleep? then Free else s.poller, calls := s.calls - {c})
      case BackingOff(n) => s.(active := s.active - {n}, calls := s.calls[c := Retrying(n)])
      case Retrying(n) => s.(retry := s.retry + {n}, calls := s.calls - {c})
      case Removing(n) =>
        s.(active := s.active - {n}, calls := if n in s.active then s.calls - {c} else s.calls[c := RemovingRetry(n)])
      case RemovingRetry(n) => s.(retry := s.retry - {n}, calls := s.calls - {c})
  }

  predicate CanRun(s: State, run: seq<Action>)
    decreases run
  {
    run == [] || (Enabled(s, run[0]) && CanRun(Take(s, run[0]), run[1..]))
  }

  function Run(s: State, run: seq<Action>): State
    requires CanRun(s, run)
    decreases run
  {
    if run == [] then s else Run(Take(s, run[0]), run[1..])
  }

  const START := State({}, {}, map[], false, Free)

  /** No pod waits in both queues. */
  predicate Apart(s: State) { s.active !! s.retry }

  predicate Activates(p: Place) { p.Replacing? || p.Activating? }

  /** Past their first steps, one call is about to activate a pod and another to put it up for a retry. */
  ghost predicate Overlap(s: State) {
    exists c, d :: c in s.calls && d in s.calls && Activates(s.calls[c]) && s.calls[d] == Retrying(s.calls[c].pod)
  }

  /** What a call has taken off a queue stays off it until the call is over. */
  ghost predicate Guarded(s: State) {
    forall c :: c in s.calls ==>
      && (Activates(s.calls[c]) ==> s.calls[c].pod !in s.retry)
      && (s.calls[c].Retrying? ==> s.calls[c].pod !in s.active)
  }

  lemma StepStaysApart(s: State, a: Action)
    requires Apart(s) && Guarded(s) && !Overlap(s) && Enabled(s, a)
    ensures Apart(Take(s, a)) && Guarded(Take(s, a))
  {
    if a.Step? {
      var p := s.calls[a.c];
      assert p.Activating? ==> forall d :: d in s.calls ==> s.calls[d] != Retrying(p.pod);
      assert p.Retrying? ==> forall d :: d in s.calls && Activates(s.calls[d]) ==> s.calls[d].pod != p.pod;
    }
  }

  /** Calls never overlap along the run. */
  ghost predicate NeverOverlap(s: State, run: seq<Action>)
    requires CanRun(s, run)
    decreases run
  {
    !Overlap(s) && (run == [] || NeverOverlap(Take(s, run[0]), run[1..]))
  }

  /** Without overlapping calls no pod is ever in both queues. */
  lemma {:induction false} StaysApart(s: State, run: seq<Action>)
    requires Apart(s) && Guarded(s) && CanRun(s, run) && NeverOverlap(s, run)
    ensures Apart(Run(s, run)) && Guarded(Run(s, run))
    decreases run
  {
    if run != [] {
      StepStaysApart(s, run[0]);
      StaysApart(Take(s, run[0]), run[1..]);
    }
  }

  /** Two calls that overlap need no other call to put the pod into both queues. */
  lemma OverlapShares(s: State) returns (run: seq<Action>)
    requires Overlap(s)
    ensures OnlySteps(run) && CanRun(s, run) && !Apart(Run(s, run))
  {
    var c, d :| c in s.calls && d in s.calls && Activates(s.calls[c]) && s.calls[d] == Retrying(s.calls[c].pod);
    var n := s.calls[c].pod;
    var rest := if s.calls[c].Replacing? then [Step(c), Step(c)] else [Step(c)];
    run := [Step(d)] + rest;
    var t := Take(s, Step(d));
    assert run[1..] == rest && rest[1..] == if s.calls[c].Replacing? then [Step(c)] else [];
    assert n in t.retry && c in t.calls && t.calls[c] == s.calls[c];
    ActivationEnds(t, c, rest);
    assert n in Run(t, rest).active && n in Run(t, rest).retry;
  }

  lemma ActivationEnds(s: State, c: Caller, run: seq<Action>)
    requires c in s.calls && Activates(s.calls[c])
    requires run == if s.calls[c].Replacing? then [Step(c), Step(c)] else [Step(c)]
    ensures CanRun(s, run) && s.calls[c].pod in Run(s, run).active && Run(s, run).retry == s.retry
  {
    var t := Take(s, Step(c));
    if s.calls[c].Replacing? {
      assert run[1..] == [Step(c)] && [Step(c)][1..] == [];
      RunOne(t, Step(c));
    } else {
      assert run[1..] == [];
    }
  }

  // ---------- Exactly when ----------

  predicate Adds(p: Place) { p.Adding? || Activates(p) }

  predicate BacksOff(p: Place) { p.BackingOff? || p.Retrying? }

  /** An add and a backoff, or a put-back, of the same pod are in flight together. */
  ghost predicate Meet(s: State) {
    exists c, d :: c in s.calls && d in s.calls && Adds(s.calls[c]) && BacksOff(s.calls[d])
                   && s.calls[c].pod == s.calls[d].pod
  }

  predicate OnlySteps(run: seq<Action>) { forall i :: 0 <= i < |run| ==> run[i].Step? }

  /** The calls in flight go on, and no other is made. */
  ghost predicate CanShare(s: State) {
    exists run :: OnlySteps(run) && CanRun(s, run) && !Apart(Run(s, run))
  }

  lemma {:induction false} StepsDoNotMeet(s: State, run: seq<Action>)
    requires !Meet(s) && OnlySteps(run) && CanRun(s, run)
    ensures NeverOverlap(s, run)
    decreases run
  {
    if run != [] {
      var t := Take(s, run[0]);
      forall c | c in t.calls
        ensures c in s.calls && (Adds(t.calls[c]) ==> Adds(s.calls[c]) && t.calls[c].pod == s.calls[c].pod)
        ensures BacksOff(t.calls[c]) ==> BacksOff(s.calls[c]) && t.calls[c].pod == s.calls[c].pod
      {
      }
      StepsDoNotMeet(t, run[1..]);
    }
  }

  /** The first steps of the two calls, the backoff's before the add's. */
  lemma MeetOverlaps(s: State) returns (run: seq<Action>)
    requires Meet(s)
    ensures OnlySteps(run) && CanRun(s, run) && Overlap(Run(s, run))
  {
    var c, d :| c in s.calls && d in s.calls && Adds(s.calls[c]) && BacksOff(s.calls[d])
      && s.calls[c].pod == s.calls[d].pod;
    var first := if s.calls[d].BackingOff? then [Step(d)] else [];
    var then_ := if s.calls[c].Adding? then [Step(c)] else [];
    var t := if s.calls[d].BackingOff? then Take(s, Step(d)) else s;
    if s.calls[d].BackingOff? { RunOne(s, Step(d)); }
    assert t.calls[c] == s.calls[c];
    var u := if t.calls[c].Adding? then Take(t, Step(c)) else t;
    if t.calls[c].Adding? { RunOne(t, Step(c)); }
    RunJoin(s, first, then_);
    run := first + then_;
    assert Activates(u.calls[c]) && u.calls[d] == Retrying(u.calls[c].pod);
  }

  lemma RunOne(s: State, a: Action)
    requires Enabled(s, a)
    ensures CanRun(s, [a]) && Run(s, [a]) == Take(s, a)
  {
    assert [a][1..] == [];
  }

  lemma {:induction false} RunJoin(s: State, a: seq<Action>, b: seq<Action>)
    requires CanRun(s, a) && CanRun(Run(s, a), b)
    ensures CanRun(s, a + b) && Run(s, a + b) == Run(Run(s, a), b)
    decreases a
  {
    if a == [] {
      assert a + b == b;
    } else {
      RunJoin(Take(s, a[0]), a[1..], b);
      assert (a + b)[1..] == a[1..] + b;
    }
  }

  /** Calls in flight can put a pod into both queues exactly if an add and a backoff, or put-back, are among them. */
  lemma SharedExactlyWhen(s: State)
    requires Apart(s) && Guarded(s)
    ensures CanShare(s) <==> Meet(s)
  {
    if Meet(s) {
      var first := MeetOverlaps(s);
      var rest := OverlapShares(Run(s, first));
      RunJoin(s, first, rest);
      assert OnlySteps(first + rest);
    }
    if CanShare(s) && !Meet(s) {
      var run :| OnlySteps(run) && CanRun(s, run) && !Apart(Run(s, run));
      StepsDoNotMeet(s, run);
      StaysApart(s, run);
      assert false;
    }
  }

  /** From the start, whatever is called: as long as no such two calls overlap, no pod is in both queues. */
  lemma NeverShared(run: seq<Action>)
    requires CanRun(START, run) && NeverOverlap(START, run)
    ensures Apart(Run(START, run)) && Guarded(Run(START, run))
  {
    StaysApart(START, run);
  }

  /** An add by itself leaves the pod on the active queue only. */
  lemma AddQueues(s: State, c: Caller, n: string) returns (run: seq<Action>)
    requires c !in s.calls && !s.poller.Looked?
    ensures CanRun(s, run) && Run(s, run).calls == s.calls
    ensures Run(s, run).active == s.active + {n} && Run(s, run).retry == s.retry - {n}
  {
    var t := Take(s, CallAdd(c, n));
    var u := Take(t, Step(c));
    RunOne(s, CallAdd(c, n));
    RunOne(t, Step(c));
    RunJoin(s, [CallAdd(c, n)], [Step(c)]);
    run := [CallAdd(c, n)] + [Step(c)];
    if n !in s.retry {
      RunOne(u, Step(c));
      RunJoin(s, run, [Step(c)]);
      run, u := run + [Step(c)], Take(u, Step(c));
    }
    var v := Take(u, Step(c));
    RunOne(u, Step(c));
    RunJoin(s, run, [Step(c)]);
    run := run + [Step(c)];
    RunOne(v, Step(c));
    RunJoin(s, run, [Step(c)]);
    run := run + [Step(c)];
    assert Take(v, Step(c)).calls == s.calls;
  }

  /** A backoff by itself leaves the pod on the retry queue only. */
  lemma BackoffQueues(s: State, c: Caller, n: string) returns (run: seq<Action>)
    requires c !in s.calls
    ensures CanRun(s, run) && Run(s, run).calls == s.calls
    ensures Run(s, run).active == s.active - {n} && Run(s, run).retry == s.retry + {n}
  {
    var t := Take(s, CallBackoff(c, n));
    var u := Take(t, Step(c));
    RunOne(s, CallBackoff(c, n));
    RunOne(t, Step(c));
    RunJoin(s, [CallBackoff(c, n)], [Step(c)]);
    RunOne(u, Step(c));
    RunJoin(s, [CallBackoff(c, n)] + [Step(c)], [Step(c)]);
    run := [CallBackoff(c, n)] + [Step(c)] + [Step(c)];
    assert Take(u, Step(c)).calls == s.calls;
  }

  /** A remove by itself takes the pod off the queues unless it was in both: then the copy for the retry stays. */
  lemma RemoveTakesOff(s: State, c: Caller, n: string) returns (run: seq<Action>)
    requires c !in s.calls
    ensures CanRun(s, run) && Run(s, run).calls == s.calls
    ensures Run(s, run).active == s.active - {n}
    ensures Run(s, run).retry == if n in s.active then s.retry else s.retry - {n}
    ensures n !in Run(s, run).active + Run(s, run).retry <==> !(n in s.active && n in s.retry)
  {
    var t := Take(s, CallRemove(c, n));
    var u := Take(t, Step(c));
    RunOne(s, CallRemove(c, n));
    RunOne(t, Step(c));
    RunJoin(s, [CallRemove(c, n)], [Step(c)]);
    run := [CallRemove(c, n)] + [Step(c)];
    if n in s.active {
      assert u.calls == s.calls;
    } else {
      RunOne(u, Step(c));
      RunJoin(s, run, [Step(c)]);
      run := run + [Step(c)];
      assert Take(u, Step(c)).calls == s.calls;
    }
  }

  // ---------- A remove among other calls ----------

  /** A call that is to queue the pod is in flight. */
  ghost predicate Requeues(s: State, n: string) {
    exists d :: d in s.calls && (Adds(s.calls[d]) || BacksOff(s.calls[d])) && s.calls[d].pod == n
  }

  /** The calls in flight can go on so that the remove is over and the pod is queued. */
  ghost predicate CanSurvive(s: State, c: Caller, n: string) {
    exists run :: OnlySteps(run) && CanRun(s, run) && c !in Run(s, run).calls
                  && n in Run(s, run).active + Run(s, run).retry
  }

  /** What a remove has left to do, with nobody to queue the pod again. */
  ghost predicate GoingOff(s: State, c: Caller, n: string) {
    && !Requeues(s, n)
    && if c !in s.calls then n !in s.active + s.retry
       else || (s.calls[c] == Removing(n) && !(n in s.active && n in s.retry))
            || (s.calls[c] == RemovingRetry(n) && n !in s.active)
  }

  lemma {:induction false} GoesOff(s: State, c: Caller, n: string, run: seq<Action>)
    requires GoingOff(s, c, n) && OnlySteps(run) && CanRun(s, run)
    ensures GoingOff(Run(s, run), c, n)
    decreases run
  {
    if run != [] {
      var t := Take(s, run[0]);
      forall d | d in t.calls && (Adds(t.calls[d]) || BacksOff(t.calls[d]))
        ensures t.calls[d].pod != n
      {
        assert d in s.calls && (Adds(s.calls[d]) || BacksOff(s.calls[d])) && s.calls[d].pod == t.calls[d].pod;
      }
      GoesOff(t, c, n, run[1..]);
    }
  }

  /** The remove goes first, by itself. */
  lemma RemoveEnds(s: State, c: Caller, n: string) returns (run: seq<Action>)
    requires c in s.calls && s.calls[c] == Removing(n)
    ensures OnlySteps(run) && CanRun(s, run) && Run(s, run).calls == s.calls - {c}
  {
    var t := Take(s, Step(c));
    RunOne(s, Step(c));
    run := [Step(c)];
    if n !in s.active {
      RunOne(t, Step(c));
      RunJoin(s, [Step(c)], [Step(c)]);
      run := [Step(c)] + [Step(c)];
    }
  }

  /** A call that is to queue the pod goes on until it has. */
  lemma QueuesAgain(s: State, d: Caller) returns (run: seq<Action>)
    requires d in s.calls && (Adds(s.calls[d]) || BacksOff(s.calls[d]))
    ensures OnlySteps(run) && CanRun(s, run) && s.calls[d].pod in Run(s, run).active + Run(s, run).retry
    ensures forall c :: c !in s.calls ==> c !in Run(s, run).calls
    decreases match s.calls[d] case Adding(_) => 3 case Replacing(_) => 2 case BackingOff(_) => 2 case _ => 1
  {
    var t := Take(s, Step(d));
    RunOne(s, Step(d));
    if s.calls[d].Activating? || s.calls[d].Retrying? {
      run := [Step(d)];
    } else {
      var rest := QueuesAgain(t, d);
      RunJoin(s, [Step(d)], rest);
      run := [Step(d)] + rest;
    }
  }

  /**
    A remove can end with the pod still queued exactly if the pod is in both queues, or a call that is to queue it
    is in flight.
   */
  lemma RemoveExactlyWhen(s: State, c: Caller, n: string)
    requires c in s.calls && s.calls[c] == Removing(n)
    ensures CanSurvive(s, c, n) <==> (n in s.active && n in s.retry) || Requeues(s, n)
  {
    if Requeues(s, n) {
      var d :| d in s.calls && (Adds(s.calls[d]) || BacksOff(s.calls[d])) && s.calls[d].pod == n;
      var first := RemoveEnds(s, c, n);
      var rest := QueuesAgain(Run(s, first), d);
      RunJoin(s, first, rest);
      assert OnlySteps(first + rest);
    } else if n in s.active && n in s.retry {
      RunOne(s, Step(c));
      assert OnlySteps([Step(c)]);
    } else if CanSurvive(s, c, n) {
      var run :| OnlySteps(run) && CanRun(s, run) && c !in Run(s, run).calls
        && n in Run(s, run).active + Run(s, run).retry;
      GoesOff(s, c, n, run);
      assert false;
    }
  }

  // ---------- Waking up ----------

  /** While the scheduler is about to sleep, or sleeps, whatever it would wake up for is still to be announced. */
  ghost predicate WillWake(s: State) {
    (s.poller.Looked? || s.poller.Asleep?) && (s.active != {} || s.stopped) ==>
      exists c :: c in s.calls && s.calls[c].Announcing?
  }

  lemma StepWillWake(s: State, a: Action)
    requires WillWake(s) && Enabled(s, a)
    ensures WillWake(Take(s, a))
  {
    var t := Take(s, a);
    if (t.poller.Looked? || t.poller.Asleep?) && (t.active != {} || t.stopped) {
      if a.Step? && (s.calls[a.c].Activating? || s.calls[a.c].Stopping?) {
        assert t.calls[a.c].Announcing?;
      } else {
        assert s.poller.Looked? || s.poller.Asleep?;
        var c :| c in s.calls && s.calls[c].Announcing?;
        assert c in t.calls && t.calls[c].Announcing?;
      }
    }
  }

  /** No wake-up is lost: with no call in flight, the scheduler sleeps only while there is nothing to do. */
  lemma {:induction false} NoWakeUpLost(s: State, run: seq<Action>)
    requires WillWake(s) && CanRun(s, run)
    ensures WillWake(Run(s, run))
    ensures Run(s, run).calls == map[] && Run(s, run).poller.Asleep? ==>
              Run(s, run).active == {} && !Run(s, run).stopped
    decreases run
  {
    if run != [] {
      StepWillWake(s, run[0]);
      NoWakeUpLost(Take(s, run[0]), run[1..]);
    }
  }
}
