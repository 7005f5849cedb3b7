/**
  The store's event stream and its watchers. A watcher turns each store event into at most one watch
  event; a client that replays the watch events (upsert on Added or Modified, remove on Deleted)
  follows exactly the part of the store it watches.
 */
module Watch {
  import opened Common
  import opened StoreMap

  /** What a write to the store reports; `old` is the object it replaced or removed. */
  datatype ObjEvent =
    | ObjCreated(key: string, obj: ApiObject, rev: nat)
    | ObjUpdated(key: string, obj: ApiObject, old_: ApiObject, rev: nat)
    | ObjDeleted(key: string, old_: ApiObject, rev: nat)

  datatype Kind = Added | Modified | Deleted
  datatype WatchEvent = WatchEvent(kind: Kind, obj: ApiObject)

  /** `predicate_` is absent for the empty selector, which accepts everything. */
  datatype Watcher = Watcher(keyPrefix: string, recursive: bool, predicate_: Option<string -> bool>) {

    predicate Covers(key: string) {
      if recursive then keyPrefix <= key else key == keyPrefix
    }

    predicate Filter(obj: ApiObject) {
      predicate_.None? || predicate_.value(obj.content)
    }

    function Transform(e: ObjEvent): Option<WatchEvent> {
      if !Covers(e.key) then None else
      match e
      case ObjDeleted(_, old_, _) => if !Filter(old_) then None else Some(WatchEvent(Deleted, old_))
      case ObjCreated(_, obj, _) => if !Filter(obj) then None else Some(WatchEvent(Added, obj))
      case ObjUpdated(_, obj, old_, _) =>
        if predicate_.None? then Some(WatchEvent(Modified, obj))
        else if Filter(obj) && Filter(old_) then Some(WatchEvent(Modified, obj))
        else if Filter(obj) && !Filter(old_) then Some(WatchEvent(Modified, obj))
        else if !Filter(obj) && Filter(old_) then Some(WatchEvent(Deleted, old_))
        else None
    }
  }

  type Objects = map<string, ApiObject>

  // ---------- What the stream means ----------

  function ApplyEvent(m: Objects, e: ObjEvent): Objects {
    match e
    case ObjCreated(key, obj, _) => m[key := obj]
    case ObjUpdated(key, obj, _, _) => m[key := obj]
    case ObjDeleted(key, _, _) => m - {key}
  }

  /** The event reports a change that can happen to `m`. A removed object is reported under a new version. */
  predicate Fits(m: Objects, e: ObjEvent) {
    match e
    case ObjCreated(key, obj, _) => key !in m && obj.key == key
    case ObjUpdated(key, obj, old_, _) => key in m && old_ == m[key] && obj.key == key
    case ObjDeleted(key, old_, _) => key in m && old_.key == key && old_.content == m[key].content
  }

  function Stored(log: seq<ObjEvent>): Objects {
    if log == [] then map[] else ApplyEvent(Stored(log[..|log| - 1]), log[|log| - 1])
  }

  predicate WellFormedLog(log: seq<ObjEvent>) {
    log == [] || (WellFormedLog(log[..|log| - 1]) && Fits(Stored(log[..|log| - 1]), log[|log| - 1]))
  }

  // ---------- What a client sees ----------

  /** The watched part of the store. */
  function View(w: Watcher, m: Objects): Objects {
    map k | k in m && w.Covers(k) && w.Filter(m[k]) :: m[k]
  }

  /** Under a prefix means: the prefix and something after it. */
  lemma ViewIs(w: Watcher, m: Objects, k: string)
    ensures k in View(w, m) <==>
            && k in m && (w.predicate_.Some? ==> w.predicate_.value(m[k].content))
            && if w.recursive then exists rest :: k == w.keyPrefix + rest else k == w.keyPrefix
    ensures k in View(w, m) ==> View(w, m)[k] == m[k]
  {
    if w.keyPrefix <= k { assert k == w.keyPrefix + k[|w.keyPrefix|..]; }
  }

  /** Which events a watcher sends on, and as what: only a created object is added, only an updated one modified. */
  lemma SentAs(w: Watcher, e: ObjEvent)
    ensures w.Transform(e).Some? <==>
            w.Covers(e.key) && match e
                               case ObjCreated(_, obj, _) => w.Filter(obj)
                               case ObjUpdated(_, obj, old_, _) => w.Filter(obj) || w.Filter(old_)
                               case ObjDeleted(_, old_, _) => w.Filter(old_)
    ensures w.Transform(e).Some? ==>
              var sent := w.Transform(e).value;
              && (sent.kind.Added? <==> e.ObjCreated?)
              && (sent.kind.Modified? <==> e.ObjUpdated? && w.Filter(e.obj))
              && (sent.kind.Deleted? ==> e.ObjDeleted? || (e.ObjUpdated? && w.Filter(e.old_)))
              && sent.obj == (if sent.kind.Deleted? then e.old_ else e.obj)
  {
  }

  function ReplayOne(v: Objects, e: WatchEvent): Objects {
    match e.kind
    case Deleted => v - {e.obj.key}
    case _ => v[e.obj.key := e.obj]
  }

  function Replay(v: Objects, events: seq<WatchEvent>): Objects {
    if events == [] then v else ReplayOne(Replay(v, events[..|events| - 1]), events[|events| - 1])
  }

  /** The watcher's output for a stretch of the stream. */
  function Output(w: Watcher, log: seq<ObjEvent>): seq<WatchEvent> {
    if log == [] then [] else
      Output(w, log[..|log| - 1]) + match w.Transform(log[|log| - 1]) case None => [] case Some(e) => [e]
  }

  predicate Keyed(m: Objects) {
    forall k :: k in m ==> m[k].key == k
  }

  lemma {:induction false} StoredKeyed(log: seq<ObjEvent>)
    requires WellFormedLog(log)
    ensures Keyed(Stored(log))
  {
    if log != [] { StoredKeyed(log[..|log| - 1]); }
  }

  /** One event keeps the client in step with the store. */
  lemma ReplayFollowsOne(w: Watcher, m: Objects, e: ObjEvent)
    requires Fits(m, e) && Keyed(m)
    ensures match w.Transform(e)
            case None => View(w, ApplyEvent(m, e)) == View(w, m)
            case Some(out) => View(w, ApplyEvent(m, e)) == ReplayOne(View(w, m), out)
  {
    var m', v := ApplyEvent(m, e), View(w, m);
    match w.Transform(e)
    case None => assert View(w, m') == v;
    case Some(out) =>
      assert out.obj.key == e.key;
      assert View(w, m') == ReplayOne(v, out);
  }

  lemma {:induction false} ReplayConcat(v: Objects, a: seq<WatchEvent>, b: seq<WatchEvent>)
    ensures Replay(v, a + b) == Replay(Replay(v, a), b)
  {
    if b == [] {
      assert a + b == a;
    } else {
      assert (a + b)[..|a + b| - 1] == a + b[..|b| - 1];
      ReplayConcat(v, a, b[..|b| - 1]);
    }
  }

  lemma {:induction false} OutputConcat(w: Watcher, a: seq<ObjEvent>, b: seq<ObjEvent>)
    ensures Output(w, a + b) == Output(w, a) + Output(w, b)
  {
    if b == [] {
      assert a + b == a;
    } else {
      assert (a + b)[..|a + b| - 1] == a + b[..|b| - 1];
      OutputConcat(w, a, b[..|b| - 1]);
    }
  }

  lemma {:induction false} WellFormedPrefix(log: seq<ObjEvent>, n: nat)
    requires WellFormedLog(log) && n <= |log|
    ensures WellFormedLog(log[..n])
  {
    if n < |log| {
      WellFormedPrefix(log[..|log| - 1], n);
      assert log[..|log| - 1][..n] == log[..n];
    } else {
      assert log[..n] == log;
    }
  }

  /** A client in step at any point of the stream stays in step by replaying the watcher's output from there on. */
  lemma {:induction false} ReplayFollows(w: Watcher, log: seq<ObjEvent>, n: nat)
    requires WellFormedLog(log) && n <= |log|
    ensures Replay(View(w, Stored(log[..n])), Output(w, log[n..])) == View(w, Stored(log))
    decreases |log|
  {
    if n == |log| {
      assert log[..n] == log && log[n..] == [];
    } else {
      var front, last := log[..|log| - 1], log[|log| - 1];
      ReplayFollows(w, front, n);
      StoredKeyed(front);
      ReplayFollowsOne(w, Stored(front), last);
      assert front[..n] == log[..n] && log[n..][..|log| - n - 1] == front[n..];
      var o := Output(w, front[n..]);
      match w.Transform(last)
      case None => assert o + [] == o;
      case Some(e) => assert (o + [e])[..|o|] == o;
    }
  }

  /** From an empty client, the whole output reproduces exactly the watched objects. */
  lemma ReplayFromStart(w: Watcher, log: seq<ObjEvent>)
    requires WellFormedLog(log)
    ensures Replay(map[], Output(w, log)) == View(w, Stored(log))
  {
    ReplayFollows(w, log, 0);
    assert log[..0] == [] && log[0..] == log && View(w, map[]) == map[];
  }

  // ---------- Resuming at a revision ----------

  predicate RevisionsRise(log: seq<ObjEvent>) {
    forall i, j :: 0 <= i < j < |log| ==> log[i].rev < log[j].rev
  }

  /** The cached events under `key` with a revision above `rev`, in order. */
  function EventsAfter(log: seq<ObjEvent>, key: string, rev: nat): seq<ObjEvent> {
    if log == [] then [] else
      var e := log[|log| - 1];
      EventsAfter(log[..|log| - 1], key, rev) + if key <= e.key && e.rev > rev then [e] else []
  }

  class WatchCache {
    var events: seq<ObjEvent>

    constructor ()
      ensures events == []
    {
      events := [];
    }

    /** Whoever asks later gets what they would have got before, followed by this event if it is for them. */
    method AddObjEvents(event: ObjEvent)
      modifies this
      ensures events == old(events) + [event]
      ensures forall key, rev :: EventsAfter(events, key, rev) ==
                                 EventsAfter(old(events), key, rev) +
                                 if key <= event.key && event.rev > rev then [event] else []
    {
      assert (events + [event])[..|events|] == events;
      events := events + [event];
    }

    method GetObjEventsAfterRev(key: string, rev: nat) returns (objEvents: seq<ObjEvent>)
      ensures objEvents == EventsAfter(events, key, rev)
    {
      objEvents := [];
      for i := 0 to |events|
        invariant objEvents == EventsAfter(events[..i], key, rev)
      {
        assert events[..i + 1][..i] == events[..i];
        if key <= events[i].key && events[i].rev > rev {
          objEvents := objEvents + [events[i]];
        }
      }
      assert events[..|events|] == events;
    }
  }

  /** Leaving out events the watcher does not cover changes nothing in its output. */
  lemma {:induction false} OutputOfCovered(w: Watcher, log: seq<ObjEvent>, key: string, rev: nat)
    requires key <= w.keyPrefix
    requires forall i :: 0 <= i < |log| ==> log[i].rev > rev
    ensures Output(w, EventsAfter(log, key, rev)) == Output(w, log)
  {
    if log != [] {
      var front, e := log[..|log| - 1], log[|log| - 1];
      OutputOfCovered(w, front, key, rev);
      var kept := EventsAfter(front, key, rev);
      if key <= e.key {
        assert (kept + [e])[..|kept|] == kept;
      } else {
        assert !w.Covers(e.key);
        assert kept + [] == kept && Output(w, front) + [] == Output(w, front);
      }
    }
  }

  lemma {:induction false} NothingAfter(log: seq<ObjEvent>, key: string, rev: nat)
    requires forall i :: 0 <= i < |log| ==> log[i].rev <= rev
    ensures EventsAfter(log, key, rev) == []
  {
    if log != [] { NothingAfter(log[..|log| - 1], key, rev); }
  }

  lemma {:induction false} EventsAfterConcat(a: seq<ObjEvent>, b: seq<ObjEvent>, key: string, rev: nat)
    ensures EventsAfter(a + b, key, rev) == EventsAfter(a, key, rev) + EventsAfter(b, key, rev)
  {
    if b == [] {
      assert a + b == a;
    } else {
      assert (a + b)[..|a + b| - 1] == a + b[..|b| - 1];
      EventsAfterConcat(a, b[..|b| - 1], key, rev);
    }
  }

  /** The view at revision `rev`, brought up to date with the cached events after it, is the current view. */
  lemma ResumeAtRevision(w: Watcher, log: seq<ObjEvent>, key: string, rev: nat, n: nat)
    requires WellFormedLog(log) && RevisionsRise(log) && key <= w.keyPrefix
    requires n <= |log| && (forall i :: 0 <= i < |log| ==> (log[i].rev <= rev <==> i < n))
    ensures Replay(View(w, Stored(log[..n])), Output(w, EventsAfter(log, key, rev))) == View(w, Stored(log))
  {
    assert log == log[..n] + log[n..];
    EventsAfterConcat(log[..n], log[n..], key, rev);
    NothingAfter(log[..n], key, rev);
    OutputOfCovered(w, log[n..], key, rev);
    assert [] + EventsAfter(log[n..], key, rev) == EventsAfter(log[n..], key, rev);
    ReplayFollows(w, log, n);
  }

  // ---------- What a replay leaves at one key ----------

  /** What a replay leaves at `k`: the last event about it decides. */
  function LastAbout(events: seq<WatchEvent>, k: string): Option<WatchEvent> {
    if events == [] then None
    else if events[|events| - 1].obj.key == k then Some(events[|events| - 1])
    else LastAbout(events[..|events| - 1], k)
  }

  lemma {:induction false} LastDecides(v: Objects, events: seq<WatchEvent>, k: string)
    ensures match LastAbout(events, k)
            case None => (k in Replay(v, events) <==> k in v) && (k in v ==> Replay(v, events)[k] == v[k])
            case Some(e) => (k in Replay(v, events) <==> !e.kind.Deleted?)
                            && (k in Replay(v, events) ==> Replay(v, events)[k] == e.obj)
  {
    if events != [] && events[|events| - 1].obj.key != k {
      LastDecides(v, events[..|events| - 1], k);
    }
  }
}
