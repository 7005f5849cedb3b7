/**
  The coalescing asynchronous application-status writer: any number of submitter threads put
  statuses into a shared change map and signal a bounded channel; one worker drains the signals,
  takes a snapshot of the map, writes it out and puts failed writes back for a retry.

  A status is represented by its ticket, its place in the order in which submitters held the
  lock of the change map; a larger ticket is a newer status.
 */
module StatusWriter {

  type Name = string
  type Ticket = nat
  type Changes = map<Name, Ticket>

  /** Buffer size of the signal channel. */
  const CAPACITY: nat := 500

  // ---------- The change map ----------

  /** The map after a change is added; without `replace` an entry already there is kept. */
  function WithChange(changes: Changes, name: Name, ticket: Ticket, replace: bool): Changes {
    if name in changes && !replace then changes else changes[name := ticket]
  }

  class StatusChangeMap {
    var changes: Changes

    constructor ()
      ensures changes == map[]
    {
      changes := map[];
    }

    method AddStatusChange(name: Name, ticket: Ticket, replace: bool)
      modifies this
      ensures changes == WithChange(old(changes), name, ticket, replace)
    {
      if name in changes {
        if replace {
          changes := changes[name := ticket];
        }
      } else {
        changes := changes[name := ticket];
      }
    }

    /** Copies every entry, then deletes the copied names, in whatever order the map is ranged over. */
    method GetAndRemoveStatusChangeSnapshot() returns (updated: Changes)
      modifies this
      ensures updated == old(changes) && changes == map[]
    {
      updated := map[];
      var toCopy := changes.Keys;
      while toCopy != {}
        invariant changes == old(changes) && toCopy <= changes.Keys
        invariant updated.Keys == changes.Keys - toCopy
        invariant forall n :: n in updated ==> updated[n] == changes[n]
      {
        var name :| name in toCopy;
        updated := updated[name := changes[name]];
        toCopy := toCopy - {name};
      }
      var toDelete := updated.Keys;
      while toDelete != {}
        invariant toDelete <= updated.Keys
        invariant changes.Keys == toDelete
      {
        var name :| name in toDelete;
        changes := changes - {name};
        toDelete := toDelete - {name};
      }
    }
  }

  // ---------- Interleaved small steps ----------

  /** A submitter is idle, about to test the channel length, or about to send a signal. */
  datatype Submitter = Idle | Checking | Sending

  datatype Worker =
    | Waiting                                 // blocked on the channel
    | Counting                                // took one signal, about to read the channel length
    | Draining(left: nat)                     // about to take `left` more signals, then the snapshot
    | Updating(todo: Changes, failed: Changes)
    | Retrying(failed: Changes)               // about to put a failed status back, or to finish
    | RetryChecking(failed: Changes)          // put one back, about to test the channel length
    | RetrySending(failed: Changes)           // saw an empty channel, about to send
  {
    /** Statuses the worker took out of the map and has neither settled nor put back. */
    function InFlight(): Changes {
      match this
      case Updating(todo, failed) => todo + failed
      case Retrying(failed) => failed
      case RetryChecking(failed) => failed
      case RetrySending(failed) => failed
      case _ => map[]
    }

    /** The worker will take a snapshot, or test the channel, before it waits again. */
    predicate WillLook() {
      Counting? || Draining? || RetryChecking? || RetrySending?
    }
  }

  /**
    `settled` records, per application, the last status whose write returned without an error;
    `latest` the last one submitted; `next` the next ticket.
   */
  datatype State = State(changes: Changes, queued: nat, submitters: seq<Submitter>, worker: Worker,
                         settled: Changes, latest: Changes, next: Ticket)

  datatype Action =
    | Submit(i: nat, name: Name)
    | Check(i: nat)
    | Send(i: nat)
    | Receive
    | Count
    | Drain
    | Snapshot
    | Update(name: Name, ok: bool)
    | FinishUpdates
    | Retry(name: Name)
    | FinishRetries
    | RetryCheck
    | RetrySend

  predicate Enabled(s: State, a: Action) {
    match a
    case Submit(i, _) => i < |s.submitters| && s.submitters[i].Idle?
    case Check(i) => i < |s.submitters| && s.submitters[i].Checking?
    case Send(i) => i < |s.submitters| && s.submitters[i].Sending? && s.queued < CAPACITY
    case Receive => s.worker.Waiting? && 0 < s.queued
    case Count => s.worker.Counting?
    case Drain => s.worker.Draining? && 0 < s.worker.left && 0 < s.queued
    case Snapshot => s.worker == Draining(0)
    case Update(name, _) => s.worker.Updating? && name in s.worker.todo
    case FinishUpdates => s.worker.Updating? && s.worker.todo == map[]
    case Retry(name) => s.worker.Retrying? && name in s.worker.failed
    case FinishRetries => s.worker.Retrying? && s.worker.failed == map[]
    case RetryCheck => s.worker.RetryChecking?
    case RetrySend => s.worker.RetrySending? && s.queued < CAPACITY
  }

  function Next(s: State, a: Action): State
    requires Enabled(s, a)
  {
    match a
    case Submit(i, name) =>
      s.(changes := WithChange(s.changes, name, s.next, true), submitters := s.submitters[i := Checking],
         latest := s.latest[name := s.next], next := s.next + 1)
    case Check(i) => s.(submitters := s.submitters[i := if s.queued == 0 then Sending else Idle])
    case Send(i) => s.(submitters := s.submitters[i := Idle], queued := s.queued + 1)
    case Receive => s.(queued := s.queued - 1, worker := Counting)
    case Count => s.(worker := Draining(s.queued))
    case Drain => s.(queued := s.queued - 1, worker := Draining(s.worker.left - 1))
    case Snapshot => s.(changes := map[], worker := Updating(s.changes, map[]))
    case Update(name, ok) =>
      var t := s.worker.todo[name];
      if ok then
        s.(worker := Updating(s.worker.todo - {name}, s.worker.failed), settled := s.settled[name := t])
      else
        s.(worker := Updating(s.worker.todo - {name}, s.worker.failed[name := t]))
    case FinishUpdates => s.(worker := Retrying(s.worker.failed))
    case Retry(name) =>
      s.(changes := WithChange(s.changes, name, s.worker.failed[name], false),
         worker := RetryChecking(s.worker.failed - {name}))
    case FinishRetries => s.(worker := Waiting)
    case RetryCheck =>
      s.(worker := if s.queued == 0 then RetrySending(s.worker.failed) else Retrying(s.worker.failed))
    case RetrySend => s.(queued := s.queued + 1, worker := Retrying(s.worker.failed))
  }

  function Start(threads: nat): State {
    State(map[], 0, seq(threads, _ => Idle), Waiting, map[], map[], 0)
  }

  ghost predicate CanRun(s: State, run: seq<Action>)
    decreases |run|
  {
    run == [] || (Enabled(s, run[0]) && CanRun(Next(s, run[0]), run[1..]))
  }

  ghost function Exec(s: State, run: seq<Action>): State
    requires CanRun(s, run)
    decreases |run|
  {
    if run == [] then s else Exec(Next(s, run[0]), run[1..])
  }

  /** `s` is reached by some interleaving of `threads` submitters and the worker. */
  ghost predicate Reachable(threads: nat, s: State) {
    exists run: seq<Action> :: CanRun(Start(threads), run) && Exec(Start(threads), run) == s
  }

  lemma {:induction false} RunsConcatenate(s: State, r1: seq<Action>, r2: seq<Action>)
    requires CanRun(s, r1) && CanRun(Exec(s, r1), r2)
    ensures CanRun(s, r1 + r2) && Exec(s, r1 + r2) == Exec(Exec(s, r1), r2)
    decreases |r1|
  {
    if r1 == [] {
      assert r1 + r2 == r2;
    } else {
      RunsConcatenate(Next(s, r1[0]), r1[1..], r2);
      assert (r1 + r2)[1..] == r1[1..] + r2;
    }
  }

  // ---------- Invariants ----------

  /** A non-empty change map will be looked at: no wake-up is lost. */
  ghost predicate WakeupPending(s: State) {
    s.changes != map[] ==>
      || 0 < s.queued
      || s.worker.WillLook()
      || exists i :: 0 <= i < |s.submitters| && !s.submitters[i].Idle?
  }

  /** The newest status of `name` still held anywhere: map, then worker, then settled. */
  function Held(name: Name, changes: Changes, flight: Changes, settled: Changes): Ticket
    requires name in changes.Keys + flight.Keys + settled.Keys
  {
    if name in changes then changes[name] else if name in flight then flight[name] else settled[name]
  }

  /** Exactly the submitted names are held, at their latest ticket, and older copies lie strictly further on. */
  ghost predicate Pipeline(changes: Changes, flight: Changes, settled: Changes, latest: Changes, next: Ticket) {
    && changes.Keys + flight.Keys + settled.Keys == latest.Keys
    && (forall n :: n in latest ==> Held(n, changes, flight, settled) == latest[n] < next)
    && (forall n :: n in changes && n in flight ==> flight[n] < changes[n])
    && (forall n :: n in changes && n in settled ==> settled[n] < changes[n])
    && (forall n :: n in flight && n in settled ==> settled[n] < flight[n])
  }

  ghost predicate PipelineOf(s: State) {
    Pipeline(s.changes, s.worker.InFlight(), s.settled, s.latest, s.next)
  }

  ghost predicate WorkerSane(s: State) {
    && (s.worker.Draining? ==> s.worker.left <= s.queued)
    && (s.worker.Updating? ==> s.worker.todo.Keys !! s.worker.failed.Keys)
  }

  ghost predicate Inv(s: State) {
    WakeupPending(s) && PipelineOf(s) && WorkerSane(s)
  }

  lemma WakeupKept(s: State, a: Action)
    requires WakeupPending(s) && Enabled(s, a)
    ensures WakeupPending(Next(s, a))
  {
    var s' := Next(s, a);
    if a.Submit? {
      assert !s'.submitters[a.i].Idle?;
    } else if s.queued == 0 && !s.worker.WillLook() && s.changes != map[] {
      var i :| 0 <= i < |s.submitters| && !s.submitters[i].Idle?;
      if !a.Send? {
        assert !s'.submitters[i].Idle?;
      }
    }
  }

  /** `older` never overtakes `newer`, name by name. */
  ghost predicate NotOlder(older: Changes, newer: Changes) {
    forall n :: n in older ==> n in newer && older[n] <= newer[n]
  }

  lemma SubmitKeepsPipeline(changes: Changes, flight: Changes, settled: Changes, latest: Changes, next: Ticket, n: Name)
    requires Pipeline(changes, flight, settled, latest, next)
    ensures Pipeline(changes[n := next], flight, settled, latest[n := next], next + 1)
  {
    var latest' := latest[n := next];
    forall m | m in latest'
      ensures Held(m, changes[n := next], flight, settled) == latest'[m] < next + 1
    {
      if m != n { assert Held(m, changes, flight, settled) == latest[m]; }
    }
    if n in flight { assert Held(n, changes, flight, settled) == latest[n]; }
    if n in settled { assert Held(n, changes, flight, settled) == latest[n]; }
  }

  lemma SettleKeepsPipeline(changes: Changes, flight: Changes, settled: Changes, latest: Changes, next: Ticket, n: Name)
    requires Pipeline(changes, flight, settled, latest, next) && n in flight
    ensures Pipeline(changes, flight - {n}, settled[n := flight[n]], latest, next)
    ensures NotOlder(settled, settled[n := flight[n]])
  {
    forall m | m in latest
      ensures Held(m, changes, flight - {n}, settled[n := flight[n]]) == latest[m] < next
    {
      assert Held(m, changes, flight, settled) == latest[m];
    }
  }

  lemma RetryKeepsPipeline(changes: Changes, flight: Changes, settled: Changes, latest: Changes, next: Ticket, n: Name)
    requires Pipeline(changes, flight, settled, latest, next) && n in flight
    ensures Pipeline(WithChange(changes, n, flight[n], false), flight - {n}, settled, latest, next)
  {
    var changes' := WithChange(changes, n, flight[n], false);
    forall m | m in latest
      ensures Held(m, changes', flight - {n}, settled) == latest[m] < next
    {
      assert Held(m, changes, flight, settled) == latest[m];
    }
  }

  lemma SnapshotKeepsPipeline(changes: Changes, settled: Changes, latest: Changes, next: Ticket)
    requires Pipeline(changes, map[], settled, latest, next)
    ensures Pipeline(map[], changes, settled, latest, next)
  {
    forall m | m in latest
      ensures Held(m, map[], changes, settled) == latest[m] < next
    {
      assert Held(m, changes, map[], settled) == latest[m];
    }
  }

  lemma InFlightAfterUpdate(todo: Changes, failed: Changes, n: Name)
    requires todo.Keys !! failed.Keys && n in todo
    ensures (todo - {n}) + failed == (todo + failed) - {n}
    ensures (todo - {n}) + failed[n := todo[n]] == todo + failed
    ensures (todo + failed)[n] == todo[n]
  {
  }

  lemma UpdateKept(s: State, name: Name, ok: bool)
    requires PipelineOf(s) && WorkerSane(s) && Enabled(s, Update(name, ok))
    ensures PipelineOf(Next(s, Update(name, ok))) && WorkerSane(Next(s, Update(name, ok)))
    ensures NotOlder(s.settled, Next(s, Update(name, ok)).settled)
  {
    InFlightAfterUpdate(s.worker.todo, s.worker.failed, name);
    if ok {
      SettleKeepsPipeline(s.changes, s.worker.InFlight(), s.settled, s.latest, s.next, name);
    }
  }

  lemma PipelineKept(s: State, a: Action)
    requires PipelineOf(s) && WorkerSane(s) && Enabled(s, a)
    ensures PipelineOf(Next(s, a)) && WorkerSane(Next(s, a))
  {
    var s', flight := Next(s, a), s.worker.InFlight();
    if a.Submit? {
      SubmitKeepsPipeline(s.changes, flight, s.settled, s.latest, s.next, a.name);
    } else if a.Update? {
      UpdateKept(s, a.name, a.ok);
    } else if a.Snapshot? {
      SnapshotKeepsPipeline(s.changes, s.settled, s.latest, s.next);
      assert s'.worker.InFlight() == s.changes;
    } else if a.Retry? {
      RetryKeepsPipeline(s.changes, flight, s.settled, s.latest, s.next, a.name);
    } else {
      assert s'.worker.InFlight() == flight && s'.changes == s.changes;
    }
  }

  lemma {:induction false} InvAlong(s: State, run: seq<Action>)
    requires Inv(s) && CanRun(s, run)
    ensures Inv(Exec(s, run))
    decreases |run|
  {
    if run != [] {
      WakeupKept(s, run[0]);
      PipelineKept(s, run[0]);
      InvAlong(Next(s, run[0]), run[1..]);
    }
  }

  // ---------- Safety over every interleaving ----------

  lemma ReachableInv(threads: nat, s: State)
    requires Reachable(threads, s)
    ensures Inv(s)
  {
    var run :| CanRun(Start(threads), run) && Exec(Start(threads), run) == s;
    InvAlong(Start(threads), run);
  }

  /** In every reachable state a non-empty map has somebody who will look at it. */
  lemma NoLostWakeup(threads: nat, s: State)
    requires Reachable(threads, s) && s.changes != map[] && s.queued == 0
    ensures s.worker.WillLook() || exists i :: 0 <= i < |s.submitters| && !s.submitters[i].Idle?
  {
    ReachableInv(threads, s);
  }

  /** The latest status of every application is in the map, in flight or settled; older copies only lie further on. */
  lemma NoLostUpdate(threads: nat, s: State, name: Name)
    requires Reachable(threads, s) && name in s.latest
    ensures || (name in s.changes && s.changes[name] == s.latest[name])
            || (name !in s.changes && name in s.worker.InFlight() && s.worker.InFlight()[name] == s.latest[name])
            || (name !in s.changes && name !in s.worker.InFlight() && name in s.settled
                && s.settled[name] == s.latest[name])
  {
    ReachableInv(threads, s);
    assert Held(name, s.changes, s.worker.InFlight(), s.settled) == s.latest[name];
  }

  /** Nothing is running and no signal is queued. */
  ghost predicate Quiescent(s: State) {
    && s.worker.Waiting? && s.queued == 0
    && forall i :: 0 <= i < |s.submitters| ==> s.submitters[i].Idle?
  }

  /** At rest, every application has had exactly its latest status written. */
  lemma QuiescentIsSettled(threads: nat, s: State)
    requires Reachable(threads, s) && Quiescent(s)
    ensures s.changes == map[] && s.settled == s.latest
  {
    ReachableInv(threads, s);
    forall n | n in s.latest
      ensures n in s.settled && s.settled[n] == s.latest[n]
    {
      assert Held(n, s.changes, s.worker.InFlight(), s.settled) == s.latest[n];
    }
  }

  /** Writes of one application are never undone by an older status, however often they are retried. */
  lemma {:induction false} SettledNeverGoesBack(s: State, run: seq<Action>)
    requires Inv(s) && CanRun(s, run)
    ensures NotOlder(s.settled, Exec(s, run).settled)
    decreases |run|
  {
    if run != [] {
      var a, t := run[0], Next(s, run[0]);
      WakeupKept(s, a);
      PipelineKept(s, a);
      SettledNeverGoesBack(t, run[1..]);
      assert NotOlder(s.settled, t.settled) by {
        if a.Update? {
          UpdateKept(s, a.name, a.ok);
        }
      }
    }
  }

  // ---------- When the worker can block on its own channel ----------

  function SendingCount(subs: seq<Submitter>): nat {
    if subs == [] then 0 else (if subs[0].Sending? then 1 else 0) + SendingCount(subs[1..])
  }

  lemma {:induction false} SendingCountBound(subs: seq<Submitter>)
    ensures SendingCount(subs) <= |subs|
  {
    if subs != [] { SendingCountBound(subs[1..]); }
  }

  lemma {:induction false} SendingCountUpdate(subs: seq<Submitter>, i: nat, p: Submitter)
    requires i < |subs|
    ensures SendingCount(subs[i := p]) ==
            SendingCount(subs) - (if subs[i].Sending? then 1 else 0) + (if p.Sending? then 1 else 0)
  {
    if i == 0 {
      assert subs[i := p][1..] == subs[1..];
    } else {
      assert subs[i := p][1..] == subs[1..][i - 1 := p];
      SendingCountUpdate(subs[1..], i - 1, p);
    }
  }

  /** Signals queued or about to be sent; the worker's own counts too. */
  function Signals(s: State): nat {
    s.queued + SendingCount(s.submitters) + if s.worker.RetrySending? then 1 else 0
  }

  ghost predicate SignalsBounded(s: State) {
    Signals(s) <= |s.submitters| + 1 && s.queued <= CAPACITY
  }

  lemma SignalsKept(s: State, a: Action)
    requires SignalsBounded(s) && Enabled(s, a)
    ensures SignalsBounded(Next(s, a)) && |Next(s, a).submitters| == |s.submitters|
  {
    SendingCountBound(s.submitters);
    match a
    case Submit(i, _) => SendingCountUpdate(s.submitters, i, Checking);
    case Check(i) =>
      var p := if s.queued == 0 then Sending else Idle;
      SendingCountUpdate(s.submitters, i, p);
      SendingCountBound(s.submitters[i := p]);
    case Send(i) => SendingCountUpdate(s.submitters, i, Idle);
    case _ =>
  }

  lemma {:induction false} SignalsAlong(s: State, run: seq<Action>)
    requires SignalsBounded(s) && CanRun(s, run)
    ensures SignalsBounded(Exec(s, run)) && |Exec(s, run).submitters| == |s.submitters|
    decreases |run|
  {
    if run != [] {
      SignalsKept(s, run[0]);
      SignalsAlong(Next(s, run[0]), run[1..]);
    }
  }

  lemma {:induction false} NoneSending(n: nat)
    ensures SendingCount(seq(n, _ => Idle)) == 0
  {
    if n != 0 {
      assert seq<Submitter>(n, _ => Idle)[1..] == seq(n - 1, _ => Idle);
      NoneSending(n - 1);
    }
  }

  lemma ReachableSignals(threads: nat, s: State)
    requires Reachable(threads, s)
    ensures SignalsBounded(s) && |s.submitters| == threads
  {
    var run :| CanRun(Start(threads), run) && Exec(Start(threads), run) == s;
    NoneSending(threads);
    SignalsAlong(Start(threads), run);
  }

  /** The only consumer waits for room in the channel it alone empties. */
  predicate Blocked(s: State) {
    s.worker.RetrySending? && s.queued == CAPACITY
  }

  /** Once blocked, the worker stays blocked and nothing is ever settled again. */
  lemma {:induction false} BlockedForever(s: State, run: seq<Action>)
    requires Blocked(s) && CanRun(s, run)
    ensures Blocked(Exec(s, run)) && Exec(s, run).settled == s.settled
    decreases |run|
  {
    if run != [] {
      BlockedForever(Next(s, run[0]), run[1..]);
    }
  }

  lemma ReachableNext(threads: nat, s: State, a: Action)
    requires Reachable(threads, s) && Enabled(s, a)
    ensures Reachable(threads, Next(s, a))
  {
    hide Enabled, Next, Start;
    var run :| CanRun(Start(threads), run) && Exec(Start(threads), run) == s;
    var t := Next(s, a);
    assert [a][1..] == [] && CanRun(t, []) && Exec(t, []) == t;
    assert CanRun(s, [a]) && Exec(s, [a]) == Exec(t, [a][1..]);
    RunsConcatenate(Start(threads), run, [a]);
    assert CanRun(Start(threads), run + [a]) && Exec(Start(threads), run + [a]) == Next(s, a);
  }

  /** One application is submitted, signalled, and taken out of the map by the worker. */
  lemma SnapshotReachable(threads: nat) returns (s: State)
    requires 0 < threads
    ensures Reachable(threads, s)
    ensures s == State(map[], 0, seq(threads, _ => Idle), Updating(map["app" := 0], map[]), map[], map["app" := 0], 1)
  {
    s := Start(threads);
    assert CanRun(s, []) && Exec(s, []) == s;
    var idle := s.submitters;
    ReachableNext(threads, s, Submit(0, "app"));
    s := State(map["app" := 0], 0, idle[0 := Checking], Waiting, map[], map["app" := 0], 1);
    ReachableNext(threads, s, Check(0));
    s := s.(submitters := idle[0 := Sending]);
    assert s.submitters == idle[0 := Checking][0 := Sending];
    ReachableNext(threads, s, Send(0));
    s := s.(submitters := idle, queued := 1);
    assert s.submitters == idle[0 := Sending][0 := Idle];
    ReachableNext(threads, s, Receive);
    ReachableNext(threads, s.(queued := 0, worker := Counting), Count);
    ReachableNext(threads, s.(queued := 0, worker := Draining(0)), Snapshot);
    s := s.(changes := map[], queued := 0, worker := Updating(map["app" := 0], map[]));
  }

  /** Its write fails, and the worker puts it back, sees an empty channel and is about to signal itself. */
  lemma RetrySendReachable(threads: nat) returns (s: State)
    requires 0 < threads
    ensures Reachable(threads, s) && s.worker.RetrySending? && s.queued == 0
    ensures |s.submitters| == threads && forall i :: 0 <= i < threads ==> s.submitters[i].Idle?
  {
    s := SnapshotReachable(threads);
    ReachableNext(threads, s, Update("app", false));
    assert s.worker.todo - {"app"} == map[];
    s := s.(worker := Updating(map[], map["app" := 0]));
    ReachableNext(threads, s, FinishUpdates);
    s := s.(worker := Retrying(map["app" := 0]));
    ReachableNext(threads, s, Retry("app"));
    s := Next(s, Retry("app"));
    ReachableNext(threads, s, RetryCheck);
    s := Next(s, RetryCheck);
  }

  /** Enough submitters that all saw an empty channel fill it before the worker's own signal gets in. */
  lemma BlockedReachable(threads: nat) returns (s: State)
    requires CAPACITY <= threads
    ensures Reachable(threads, s) && Blocked(s)
  {
    s := RetrySendReachable(threads);
    var i := 0;
    while i < CAPACITY
      invariant i <= CAPACITY && |s.submitters| == threads
      invariant Reachable(threads, s) && s.worker.RetrySending? && s.queued == 0
      invariant forall j :: 0 <= j < i ==> s.submitters[j].Sending?
      invariant forall j :: i <= j < threads ==> s.submitters[j].Idle?
    {
      ReachableNext(threads, s, Submit(i, "app"));
      s := Next(s, Submit(i, "app"));
      ReachableNext(threads, s, Check(i));
      s := Next(s, Check(i));
      i := i + 1;
    }
    i := 0;
    while i < CAPACITY
      invariant i <= CAPACITY && |s.submitters| == threads
      invariant Reachable(threads, s) && s.worker.RetrySending? && s.queued == i
      invariant forall j :: i <= j < CAPACITY ==> s.submitters[j].Sending?
    {
      ReachableNext(threads, s, Send(i));
      s := Next(s, Send(i));
      i := i + 1;
    }
  }

  // ---------- Draining: every backlog can be written out ----------

  ghost predicate NoSubmits(run: seq<Action>) {
    forall i :: 0 <= i < |run| ==> !run[i].Submit?
  }

  /** Without further submissions, `s` can come to rest. */
  ghost predicate CanDrain(s: State) {
    exists run: seq<Action> :: CanRun(s, run) && NoSubmits(run) && Quiescent(Exec(s, run))
  }

  function StepsLeft(subs: seq<Submitter>): nat {
    if subs == [] then 0 else
      (match subs[0] case Idle => 0 case Checking => 2 case Sending => 1) + StepsLeft(subs[1..])
  }

  lemma {:induction false} StepsLeftUpdate(subs: seq<Submitter>, i: nat, p: Submitter)
    requires i < |subs|
    ensures StepsLeft(subs[i := p]) == StepsLeft(subs) - StepsLeft([subs[i]]) + StepsLeft([p])
  {
    if i == 0 {
      assert subs[i := p][1..] == subs[1..];
    } else {
      assert subs[i := p][1..] == subs[1..][i - 1 := p];
      StepsLeftUpdate(subs[1..], i - 1, p);
    }
  }

  /** Retry steps the worker still owes. */
  function RetriesLeft(w: Worker): nat {
    match w
    case Updating(_, failed) => 3 * |failed|
    case Retrying(failed) => 3 * |failed|
    case RetryChecking(failed) => 3 * |failed| + 2
    case RetrySending(failed) => 3 * |failed| + 1
    case _ => 0
  }

  /** Steps left in the worker's current round. */
  function RoundLeft(s: State): nat {
    match s.worker
    case Waiting => 0
    case Retrying(_) => 1
    case RetryChecking(_) => 1
    case RetrySending(_) => 1
    case Updating(todo, _) => 2 + |todo|
    case Draining(left) => 3 + left + |s.changes|
    case Counting => 4 + s.queued + |s.changes|
  }

  ghost predicate Closer(t: State, s: State) {
    || StepsLeft(t.submitters) < StepsLeft(s.submitters)
    || (StepsLeft(t.submitters) == StepsLeft(s.submitters) &&
        (|| RetriesLeft(t.worker) < RetriesLeft(s.worker)
         || (RetriesLeft(t.worker) == RetriesLeft(s.worker) &&
             (|| t.queued < s.queued
              || (t.queued == s.queued && RoundLeft(t) < RoundLeft(s))))))
  }

  lemma RemoveOne(m: Changes, n: Name)
    requires n in m
    ensures |m - {n}| == |m| - 1
  {
    assert (m - {n}).Keys == m.Keys - {n};
  }

  lemma UpdatingStep(s: State) returns (a: Action)
    requires s.worker.Updating?
    ensures Enabled(s, a) && !a.Submit? && Closer(Next(s, a), s)
  {
    if s.worker.todo == map[] {
      a := FinishUpdates;
    } else {
      assert s.worker.todo.Keys != {};
      var n :| n in s.worker.todo;
      RemoveOne(s.worker.todo, n);
      a := Update(n, true);
    }
  }

  lemma RetryingStep(s: State) returns (a: Action)
    requires s.worker.Retrying?
    ensures Enabled(s, a) && !a.Submit? && Closer(Next(s, a), s)
  {
    if s.worker.failed == map[] {
      a := FinishRetries;
    } else {
      assert s.worker.failed.Keys != {};
      var n :| n in s.worker.failed;
      RemoveOne(s.worker.failed, n);
      a := Retry(n);
    }
  }

  lemma WorkerStep(s: State) returns (a: Action)
    requires WorkerSane(s) && !s.worker.Waiting? && !Blocked(s) && s.queued <= CAPACITY
    ensures Enabled(s, a) && !a.Submit? && Closer(Next(s, a), s)
  {
    if s.worker.Updating? {
      a := UpdatingStep(s);
    } else if s.worker.Retrying? {
      a := RetryingStep(s);
    } else {
      a := if s.worker.Counting? then Count
           else if s.worker.Draining? then (if s.worker.left == 0 then Snapshot else Drain)
           else if s.worker.RetryChecking? then RetryCheck
           else RetrySend;
    }
  }

  lemma HelpfulStep(s: State) returns (a: Action)
    requires WorkerSane(s) && !Blocked(s) && s.queued <= CAPACITY && !Quiescent(s)
    ensures Enabled(s, a) && !a.Submit? && Closer(Next(s, a), s)
  {
    if !s.worker.Waiting? {
      a := WorkerStep(s);
    } else if 0 < s.queued {
      a := Receive;
    } else {
      var i: nat :| i < |s.submitters| && !s.submitters[i].Idle?;
      a := if s.submitters[i].Checking? then Check(i) else Send(i);
      StepsLeftUpdate(s.submitters, i, if s.submitters[i].Checking? then Sending else Idle);
    }
  }

  lemma Drains(s: State) returns (run: seq<Action>)
    requires Inv(s) && SignalsBounded(s) && |s.submitters| < CAPACITY
    ensures CanRun(s, run) && NoSubmits(run) && Quiescent(Exec(s, run))
    decreases StepsLeft(s.submitters), RetriesLeft(s.worker), s.queued, RoundLeft(s)
  {
    if Quiescent(s) {
      run := [];
    } else {
      var a := HelpfulStep(s);
      WakeupKept(s, a);
      PipelineKept(s, a);
      SignalsKept(s, a);
      var rest := Drains(Next(s, a));
      run := [a] + rest;
      assert run[1..] == rest;
    }
  }

  /**
    Exactly when there are fewer submitter threads than channel slots, every reachable state can
    still have its whole backlog written out; with more, the worker can block itself for good.
   */
  lemma DrainsIffFewSubmitters(threads: nat)
    ensures (forall s :: Reachable(threads, s) ==> CanDrain(s)) <==> threads < CAPACITY
  {
    if threads < CAPACITY {
      forall s | Reachable(threads, s)
        ensures CanDrain(s)
      {
        ReachableInv(threads, s);
        ReachableSignals(threads, s);
        var run := Drains(s);
      }
    } else {
      var s := BlockedReachable(threads);
      assert !CanDrain(s) by {
        if CanDrain(s) {
          var run :| CanRun(s, run) && NoSubmits(run) && Quiescent(Exec(s, run));
          BlockedForever(s, run);
        }
      }
    }
  }
}
