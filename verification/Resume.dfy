/**
  How a watch that starts at a revision catches up: the store has no log of events, so it makes up
  events from the objects and tombstones in its revision-ordered list.
 */
module Resume {
  import opened Common
  import opened StoreMap
  import opened ObjList
  import opened Watch
  import opened MemoryStore

  /** An object is reported as created, a tombstone as deleted. */
  function ListEvent(v: ObjWithIndex): ObjEvent {
    if v.deleted then ObjDeleted(v.obj.key, v.obj, v.obj.version) else ObjCreated(v.obj.key, v.obj, v.obj.version)
  }

  /** Versions from `lo` on are asked for: past the client's revision, or from it on if the match includes it. */
  predicate Picks(v: Slot, key: string, lo: nat) {
    v != null && key <= v.obj.key && v.obj.version >= lo
  }

  /** The made-up events, from slot `from` on. */
  function Backlog(objs: seq<Slot>, from: nat, key: string, lo: nat): seq<ObjEvent> {
    if |objs| <= from then []
    else
      var v := objs[|objs| - 1];
      Backlog(objs[..|objs| - 1], from, key, lo) + if Picks(v, key, lo) then [ListEvent(v)] else []
  }

  /** Exactly the slots from there on under the key and of such a version give an event, as created or as deleted. */
  lemma {:induction false} BacklogIs(objs: seq<Slot>, from: nat, key: string, lo: nat, e: ObjEvent)
    ensures e in Backlog(objs, from, key, lo) <==>
            exists i :: from <= i < |objs| && objs[i] != null && key <= objs[i].obj.key && lo <= objs[i].obj.version
                        && e.key == objs[i].obj.key && e.rev == objs[i].obj.version
                        && (if objs[i].deleted then e.ObjDeleted? && e.old_ == objs[i].obj
                            else e.ObjCreated? && e.obj == objs[i].obj)
  {
    if |objs| > from {
      var rest := objs[..|objs| - 1];
      BacklogIs(rest, from, key, lo, e);
      assert forall i :: 0 <= i < |rest| ==> rest[i] == objs[i];
    }
  }

  // ---------- What the made-up events do at one key ----------

  /** Some object, or some tombstone, of the key gives the client an event. */
  predicate Tells(v: Slot, w: Watcher, key: string, lo: nat, k: string) {
    Picks(v, key, lo) && v.obj.key == k && w.Covers(k) && w.Filter(v.obj)
  }

  ghost predicate Told(objs: seq<Slot>, w: Watcher, key: string, lo: nat, k: string, deleted: bool) {
    exists i :: 0 <= i < |objs| && Tells(objs[i], w, key, lo, k) && objs[i].deleted == deleted
  }

  lemma ToldSnoc(objs: seq<Slot>, w: Watcher, key: string, lo: nat, k: string, deleted: bool)
    requires objs != []
    ensures Told(objs, w, key, lo, k, deleted) <==>
            || Told(objs[..|objs| - 1], w, key, lo, k, deleted)
            || (Tells(objs[|objs| - 1], w, key, lo, k) && objs[|objs| - 1].deleted == deleted)
  {
    var rest := objs[..|objs| - 1];
    if i :| 0 <= i < |rest| && Tells(rest[i], w, key, lo, k) && rest[i].deleted == deleted {
      assert objs[i] == rest[i];
    }
    if i :| 0 <= i < |objs| && Tells(objs[i], w, key, lo, k) && objs[i].deleted == deleted {
      assert i < |rest| ==> rest[i] == objs[i];
    }
  }

  /** The watch events made up from a stretch of the list. */
  function Made(objs: seq<Slot>, w: Watcher, key: string, lo: nat): seq<WatchEvent> {
    Output(w, Backlog(objs, 0, key, lo))
  }

  lemma MadeSnoc(objs: seq<Slot>, w: Watcher, key: string, lo: nat)
    requires objs != []
    ensures var v := objs[|objs| - 1];
            Made(objs, w, key, lo) == Made(objs[..|objs| - 1], w, key, lo) +
            if v != null && Tells(v, w, key, lo, v.obj.key)
            then [WatchEvent(if v.deleted then Deleted else Added, v.obj)] else []
  {
    var rest, v := objs[..|objs| - 1], objs[|objs| - 1];
    var b, m := Backlog(rest, 0, key, lo), Made(rest, w, key, lo);
    assert b + [] == b && m + [] == m;
    if Picks(v, key, lo) {
      assert (b + [ListEvent(v)])[..|b|] == b;
    }
  }

  /** Objects of one key come after its tombstones. */
  predicate TombsFirst(objs: seq<Slot>) {
    forall i, j :: 0 <= i < j < |objs| && objs[i] != null && objs[j] != null
                   && objs[i].obj.key == objs[j].obj.key && objs[j].deleted ==>
      objs[i].deleted
  }

  lemma AgreedTombsFirst(cur: Current, objs: seq<Slot>, last: nat, rev: nat)
    requires ListAgrees(cur, objs, last, rev)
    ensures TombsFirst(objs)
  {
    hide At;
    forall i, j | 0 <= i < j < |objs| && objs[i] != null && objs[j] != null
                  && objs[i].obj.key == objs[j].obj.key && objs[j].deleted
      ensures objs[i].deleted
    {
    }
  }

  /** The last event about a key: its object's, if that gives one, otherwise a tombstone's. */
  lemma {:induction false} LastMade(objs: seq<Slot>, w: Watcher, key: string, lo: nat, k: string)
    requires TombsFirst(objs)
    ensures var l := LastAbout(Made(objs, w, key, lo), k);
            if Told(objs, w, key, lo, k, false) then
              && l.Some? && l.value.kind.Added?
              && exists i :: 0 <= i < |objs| && Tells(objs[i], w, key, lo, k) && !objs[i].deleted
                             && objs[i].obj == l.value.obj
            else if Told(objs, w, key, lo, k, true) then l.Some? && l.value.kind.Deleted?
            else l.None?
  {
    hide Made, Tells;
    if objs == [] {
      assert Made(objs, w, key, lo) == [] by { MadeNothing(objs, w, key, lo); }
    } else {
      var rest, v := objs[..|objs| - 1], objs[|objs| - 1];
      LastMade(rest, w, key, lo, k);
      ToldSnoc(objs, w, key, lo, k, false);
      ToldSnoc(objs, w, key, lo, k, true);
      MadeSnoc(objs, w, key, lo);
      LastMadeStep(objs, w, key, lo, k);
    }
  }

  lemma MadeNothing(objs: seq<Slot>, w: Watcher, key: string, lo: nat)
    requires objs == []
    ensures Made(objs, w, key, lo) == []
  {
  }

  lemma LastMadeStep(objs: seq<Slot>, w: Watcher, key: string, lo: nat, k: string)
    requires TombsFirst(objs) && objs != []
    ensures var v := objs[|objs| - 1];
            && LastAbout(Made(objs, w, key, lo), k) ==
               (if Tells(v, w, key, lo, k) then Some(WatchEvent(if v.deleted then Deleted else Added, v.obj))
                else LastAbout(Made(objs[..|objs| - 1], w, key, lo), k))
            && (Tells(v, w, key, lo, k) && v.deleted ==> !Told(objs[..|objs| - 1], w, key, lo, k, false))
  {
    var rest, v := objs[..|objs| - 1], objs[|objs| - 1];
    var m := Made(rest, w, key, lo);
    MadeSnoc(objs, w, key, lo);
    if v != null && Tells(v, w, key, lo, v.obj.key) {
      var e := WatchEvent(if v.deleted then Deleted else Added, v.obj);
      assert (m + [e])[..|m|] == m && Made(objs, w, key, lo) == m + [e];
    } else {
      assert m + [] == m;
    }
    if Tells(v, w, key, lo, k) && v.deleted {
      forall i | 0 <= i < |rest| && Tells(rest[i], w, key, lo, k)
        ensures rest[i].deleted
      {
        assert rest[i] == objs[i];
      }
    }
  }

  // ---------- When the client catches up ----------

  /** The log up to revision `r` is its first `n` events. */
  ghost predicate SplitAt(log: seq<ObjEvent>, r: nat, n: nat) {
    n <= |log| && forall i :: 0 <= i < |log| ==> (log[i].rev <= r <==> i < n)
  }

  /** An object that has not changed since `r` was stored then. */
  lemma {:induction false} UnchangedSince(log: seq<ObjEvent>, r: nat, n: nat, k: string)
    requires WellFormedLog(log) && Stamped(log) && SplitAt(log, r, n)
    ensures k in Stored(log) && Stored(log)[k].version <= r ==>
              k in Stored(log[..n]) && Stored(log[..n])[k] == Stored(log)[k]
    decreases |log|
  {
    if n == |log| {
      assert log[..n] == log;
    } else {
      var rest := log[..|log| - 1];
      assert forall i :: 0 <= i < |rest| ==> rest[i] == log[i];
      UnchangedSince(rest, r, n, k);
      assert rest[..n] == log[..n];
    }
  }

  lemma {:induction false} StoredUpTo(log: seq<ObjEvent>, r: nat, k: string)
    requires Stamped(log) && forall i :: 0 <= i < |log| ==> log[i].rev <= r
    ensures k in Stored(log) ==> Stored(log)[k].version <= r
    decreases |log|
  {
    if log != [] {
      StoredUpTo(log[..|log| - 1], r, k);
    }
  }

  /** The list with the slots that the search skipped taken for empty. */
  function Masked(objs: seq<Slot>, from: nat): (m: seq<Slot>)
    ensures |m| == |objs| && forall i :: 0 <= i < |objs| ==> m[i] == if i < from then null else objs[i]
  {
    seq(|objs|, i requires 0 <= i < |objs| => if i < from then null else objs[i])
  }

  lemma {:induction false} BacklogMasked(objs: seq<Slot>, from: nat, key: string, rev: nat)
    ensures Backlog(objs, from, key, rev) == Backlog(Masked(objs, from), 0, key, rev)
  {
    if objs != [] {
      var rest := objs[..|objs| - 1];
      BacklogMasked(rest, from, key, rev);
      assert Masked(objs, from)[..|objs| - 1] == Masked(rest, from);
      if |objs| <= from { assert Backlog(rest, from, key, rev) == []; }
    }
  }

  /** The search skipped an object that has changed since the client's revision. */
  ghost predicate Missed(objs: seq<Slot>, from: nat, w: Watcher, key: string, r: nat, k: string) {
    exists i :: 0 <= i < |objs| && i < from && Tells(objs[i], w, key, r + 1, k) && !objs[i].deleted
  }

  /** Where the store, its list and its log stand, and where the client resumes. */
  ghost predicate Situation(cur: Current, objs: seq<Slot>, last: nat, rev: nat, log: seq<ObjEvent>, w: Watcher,
      key: string, r: nat, lo: nat, n: nat) {
    && ListAgrees(cur, objs, last, rev) && LogAgrees(cur, log, rev)
    && key <= w.keyPrefix && SplitAt(log, r, n) && r <= lo <= r + 1
  }

  /** Objects in the list that give the client an event are the ones in its view. */
  lemma TellsCurrent(cur: Current, objs: seq<Slot>, last: nat, rev: nat, log: seq<ObjEvent>, w: Watcher, key: string,
      lo: nat, k: string)
    requires ListAgrees(cur, objs, last, rev) && LogAgrees(cur, log, rev) && key <= w.keyPrefix
    ensures forall i :: 0 <= i < |objs| && Tells(objs[i], w, key, lo, k) && !objs[i].deleted ==>
              && k in View(w, Stored(log)) && objs[i].obj == View(w, Stored(log))[k]
              && At(k) in cur && cur[At(k)] == objs[i]
    ensures k in View(w, Stored(log)) && View(w, Stored(log))[k].version >= lo ==>
              exists i :: 0 <= i < |objs| && Tells(objs[i], w, key, lo, k) && !objs[i].deleted
  {
    hide At, Stored;
    StoredKeyed(log);
    if k in View(w, Stored(log)) && View(w, Stored(log))[k].version >= lo {
      var v := cur[At(k)];
      assert v in objs && v.obj.key == k;
      var i :| 0 <= i < |objs| && objs[i] == v;
      assert Tells(objs[i], w, key, lo, k);
    }
  }

  /** An object that changed gives an event exactly if the search did not skip it. */
  lemma ObjectTold(cur: Current, objs: seq<Slot>, last: nat, rev: nat, log: seq<ObjEvent>, w: Watcher, key: string,
                   r: nat, lo: nat, n: nat, from: nat, k: string)
    requires Situation(cur, objs, last, rev, log, w, key, r, lo, n)
    ensures var now, m := View(w, Stored(log)), Masked(objs, from);
            && (k in now && now[k].version > r ==>
                (Told(m, w, key, lo, k, false) <==> !Missed(objs, from, w, key, r, k)))
            && (Missed(objs, from, w, key, r, k) ==> k in now && now[k].version > r)
            && (forall i :: 0 <= i < |m| && Tells(m[i], w, key, lo, k) && !m[i].deleted ==>
                k in now && m[i].obj == now[k])
  {
    hide At, Stored, View, LogAgrees, Lists, TombsOlder, SplitAt;
    var now, m := View(w, Stored(log)), Masked(objs, from);
    TellsCurrent(cur, objs, last, rev, log, w, key, lo, k);
    TellsCurrent(cur, objs, last, rev, log, w, key, r + 1, k);
    TellsMore(objs, w, key, r, lo, k);
    assert forall i :: 0 <= i < |m| && m[i] != null ==> m[i] == objs[i] && i >= from;
    if k in now && now[k].version > r {
      var i :| 0 <= i < |objs| && Tells(objs[i], w, key, r + 1, k) && !objs[i].deleted;
      assert i >= from ==> m[i] == objs[i];
    }
  }

  lemma TellsMore(objs: seq<Slot>, w: Watcher, key: string, r: nat, lo: nat, k: string)
    requires lo <= r + 1
    ensures forall i :: 0 <= i < |objs| && Tells(objs[i], w, key, r + 1, k) ==>
              Tells(objs[i], w, key, lo, k) && objs[i].obj.version > r
  {
  }

  /** No tombstone of a stored object is newer than the object, and none comes after a skipped one. */
  lemma NoTombTold(cur: Current, objs: seq<Slot>, last: nat, rev: nat, log: seq<ObjEvent>, w: Watcher, key: string,
                   r: nat, lo: nat, n: nat, from: nat, k: string)
    requires Situation(cur, objs, last, rev, log, w, key, r, lo, n) && k in Stored(log)
    requires Stored(log)[k].version <= r || Missed(objs, from, w, key, r, k)
    ensures !Told(Masked(objs, from), w, key, lo, k, true)
  {
    hide At, Stored;
    var m := Masked(objs, from);
    assert cur[At(k)].obj == Stored(log)[k];
    if j :| 0 <= j < |objs| && j < from && Tells(objs[j], w, key, r + 1, k) && !objs[j].deleted {
      assert cur[At(k)] == objs[j];
    }
    assert forall i :: 0 <= i < |m| && m[i] != null ==> m[i] == objs[i] && i >= from;
  }

  lemma OldUnchanged(cur: Current, log: seq<ObjEvent>, rev: nat, r: nat, n: nat, k: string)
    requires LogAgrees(cur, log, rev) && SplitAt(log, r, n)
    ensures k in Stored(log) && Stored(log)[k].version <= r ==>
              k in Stored(log[..n]) && Stored(log[..n])[k] == Stored(log)[k]
    ensures k in Stored(log[..n]) ==> Stored(log[..n])[k].version <= r
  {
    UnchangedSince(log, r, n, k);
    StoredUpTo(log[..n], r, k);
  }

  /** The client has the same at the key as the store shows it. */
  predicate SameObject(got: Objects, now: Objects, k: string) {
    (k in got <==> k in now) && (k in now ==> got[k] == now[k])
  }

  /** A watched object that is no longer watched: it is gone, or does not match any more. */
  ghost predicate Left(w: Watcher, log: seq<ObjEvent>, n: nat, k: string)
    requires n <= |log|
  {
    k in View(w, Stored(log[..n])) && k !in View(w, Stored(log))
  }

  /** The search skipped no change of the key, and if it left the view a tombstone that matches was found. */
  ghost predicate CatchesUpAt(objs: seq<Slot>, from: nat, log: seq<ObjEvent>, w: Watcher, key: string, r: nat, lo: nat,
      n: nat, k: string)
    requires n <= |log|
  {
    && !Missed(objs, from, w, key, r, k)
    && (Left(w, log, n, k) ==> Told(Masked(objs, from), w, key, lo, k, true))
  }

  /** At one key, the client ends up with what the store has exactly under that condition. */
  lemma CaughtUpAt(cur: Current, objs: seq<Slot>, last: nat, rev: nat, log: seq<ObjEvent>, w: Watcher, key: string,
                   r: nat, lo: nat, n: nat, from: nat, k: string)
    requires Situation(cur, objs, last, rev, log, w, key, r, lo, n)
    ensures var then_, now := View(w, Stored(log[..n])), View(w, Stored(log));
            SameObject(Replay(then_, Output(w, Backlog(objs, from, key, lo))), now, k) <==>
            CatchesUpAt(objs, from, log, w, key, r, lo, n, k)
  {
    hide ListAgrees, LogAgrees, Replay, Stored, At, Told, Missed, Tells, Output, Backlog;
    var then_, now, m := View(w, Stored(log[..n])), View(w, Stored(log)), Masked(objs, from);
    BacklogMasked(objs, from, key, lo);
    AgreedTombsFirst(cur, objs, last, rev);
    MaskedTombsFirst(objs, from);
    LastMade(m, w, key, lo, k);
    LastDecides(then_, Made(m, w, key, lo), k);
    ObjectTold(cur, objs, last, rev, log, w, key, r, lo, n, from, k);
    OldUnchanged(cur, log, rev, r, n, k);
    if k in now && !Told(m, w, key, lo, k, false) {
      NoTombTold(cur, objs, last, rev, log, w, key, r, lo, n, from, k);
    }
  }

  lemma MaskedTombsFirst(objs: seq<Slot>, from: nat)
    requires TombsFirst(objs)
    ensures TombsFirst(Masked(objs, from))
  {
  }

  /**
    A client that resumes at revision `r` catches up with the store exactly if the search skipped none
    of the changed objects it watches, and every object that left its view since has a tombstone,
    neither compacted away nor skipped, that itself matches the client's selector.
   */
  lemma ResumesExactlyWhen(cur: Current, objs: seq<Slot>, last: nat, rev: nat, log: seq<ObjEvent>, w: Watcher,
      key: string, r: nat, lo: nat, n: nat, from: nat)
    requires Situation(cur, objs, last, rev, log, w, key, r, lo, n)
    ensures Replay(View(w, Stored(log[..n])), Output(w, Backlog(objs, from, key, lo))) == View(w, Stored(log)) <==>
            forall k :: CatchesUpAt(objs, from, log, w, key, r, lo, n, k)
  {
    hide ListAgrees, LogAgrees, Replay, Output, Backlog, View, CatchesUpAt;
    var got, now := Replay(View(w, Stored(log[..n])), Output(w, Backlog(objs, from, key, lo))), View(w, Stored(log));
    forall k: string
      ensures SameObject(got, now, k) <==> CatchesUpAt(objs, from, log, w, key, r, lo, n, k)
    {
      CaughtUpAt(cur, objs, last, rev, log, w, key, r, lo, n, from, k);
    }
    SameEverywhere(got, now);
  }

  lemma SameEverywhere(a: Objects, b: Objects)
    ensures a == b <==> forall k :: SameObject(a, b, k)
  {
    if forall k :: SameObject(a, b, k) {
      assert forall k :: k in a ==> SameObject(a, b, k);
      assert forall k :: k in b ==> SameObject(a, b, k);
    }
  }

  // ---------- Live events that come on top ----------

  /** The live events from position `i` on tell the client about the key. */
  predicate ToldLive(w: Watcher, log: seq<ObjEvent>, i: nat, k: string)
    requires i <= |log|
  {
    LastAbout(Output(w, log[i..]), k).Some?
  }

  lemma {:induction false} LastAboutConcat(a: seq<WatchEvent>, b: seq<WatchEvent>, k: string)
    ensures LastAbout(a + b, k) == if LastAbout(b, k).Some? then LastAbout(b, k) else LastAbout(a, k)
    decreases |b|
  {
    if b == [] {
      assert a + b == a;
    } else {
      assert (a + b)[..|a + b| - 1] == a + b[..|b| - 1];
      LastAboutConcat(a, b[..|b| - 1], k);
    }
  }

  /** A key that no live event is about is the same in the view from the first of them on. */
  lemma QuietKey(w: Watcher, log: seq<ObjEvent>, i: nat, c: nat, k: string)
    requires WellFormedLog(log) && i <= c <= |log| && !ToldLive(w, log, i, k)
    ensures SameObject(View(w, Stored(log[..c])), View(w, Stored(log)), k)
  {
    hide Output, View, Stored, Replay;
    ReplayFollows(w, log, i);
    LastDecides(View(w, Stored(log[..i])), Output(w, log[i..]), k);
    WellFormedPrefix(log, c);
    ReplayFollows(w, log[..c], i);
    assert log[..c][..i] == log[..i] && log[..c][i..] == log[i..c] && log[i..] == log[i..c] + log[c..];
    OutputConcat(w, log[i..c], log[c..]);
    LastAboutConcat(Output(w, log[i..c]), Output(w, log[c..]), k);
    LastDecides(View(w, Stored(log[..i])), Output(w, log[i..c]), k);
  }

  /** A key that a live event is about ends up as in the store, whatever the client had before. */
  lemma LoudKey(w: Watcher, log: seq<ObjEvent>, i: nat, got: Objects, k: string)
    requires WellFormedLog(log) && i <= |log| && ToldLive(w, log, i, k)
    ensures SameObject(Replay(got, Output(w, log[i..])), View(w, Stored(log)), k)
  {
    hide Output, View, Stored, Replay;
    ReplayFollows(w, log, i);
    LastDecides(View(w, Stored(log[..i])), Output(w, log[i..]), k);
    LastDecides(got, Output(w, log[i..]), k);
  }

  /** The store when the backlog is read, after the first `c` events. */
  ghost predicate ReadAt(cur: Current, objs: seq<Slot>, last: nat, rev: nat, log: seq<ObjEvent>, c: nat, w: Watcher,
      key: string, r: nat, lo: nat, n: nat) {
    c <= |log| && WellFormedLog(log) && Situation(cur, objs, last, rev, log[..c], w, key, r, lo, n)
  }

  /**
    A watcher is registered after `i` events and its backlog is read from the list after `c`, so it gets
    the backlog and then every event from `i` on, some of them again. Its client ends in step exactly if
    each key has a live event, or was caught up by the backlog.
   */
  lemma OverlapExactlyWhen(cur: Current, objs: seq<Slot>, last: nat, rev: nat, log: seq<ObjEvent>, w: Watcher,
      key: string, r: nat, lo: nat, n: nat, from: nat, i: nat, c: nat)
    requires ReadAt(cur, objs, last, rev, log, c, w, key, r, lo, n) && n <= i <= c
    ensures Replay(View(w, Stored(log[..n])), Output(w, Backlog(objs, from, key, lo)) + Output(w, log[i..])) ==
              View(w, Stored(log)) <==>
            forall k :: ToldLive(w, log, i, k) || CatchesUpAt(objs, from, log[..c], w, key, r, lo, n, k)
  {
    hide ListAgrees, LogAgrees, Replay, Output, Backlog, View, Stored, CatchesUpAt, ToldLive, WellFormedLog, SplitAt;
    var then_, now := View(w, Stored(log[..n])), View(w, Stored(log));
    var made, live := Output(w, Backlog(objs, from, key, lo)), Output(w, log[i..]);
    var got := Replay(then_, made);
    ReplayConcat(then_, made, live);
    assert log[..c][..n] == log[..n];
    forall k: string
      ensures SameObject(Replay(got, live), now, k) <==>
              ToldLive(w, log, i, k) || CatchesUpAt(objs, from, log[..c], w, key, r, lo, n, k)
    {
      if ToldLive(w, log, i, k) {
        LoudKey(w, log, i, got, k);
      } else {
        CaughtUpAt(cur, objs, last, rev, log[..c], w, key, r, lo, n, from, k);
        QuietKey(w, log, i, c, k);
        Untold(w, log, i, got, k);
      }
    }
    SameEverywhere(Replay(got, live), now);
  }

  lemma Untold(w: Watcher, log: seq<ObjEvent>, i: nat, got: Objects, k: string)
    requires i <= |log| && !ToldLive(w, log, i, k)
    ensures SameObject(Replay(got, Output(w, log[i..])), got, k)
  {
    hide Output, Replay;
    LastDecides(got, Output(w, log[i..]), k);
  }

  // ---------- Where the search starts ----------

  predicate AtLeast(v: Slot, rev: nat) { v != null && v.obj.version >= rev }

  /** `sort.Search`: halves the range, taking an empty slot for a small version. */
  function Search(objs: seq<Slot>, rev: nat, i: nat, j: nat): (r: nat)
    requires i <= j <= |objs|
    ensures i <= r <= j
    decreases j - i
  {
    if i == j then i
    else
      var h := (i + j) / 2;
      if AtLeast(objs[h], rev) then Search(objs, rev, i, h) else Search(objs, rev, h + 1, j)
  }

  /** A probe falls on an empty slot behind slot `k` while `k` is still in the range. */
  predicate Skipped(objs: seq<Slot>, rev: nat, i: nat, j: nat, k: nat)
    requires i <= j <= |objs|
    decreases j - i
  {
    i < j &&
    var h := (i + j) / 2;
    if AtLeast(objs[h], rev) then k < h && Skipped(objs, rev, i, h, k)
    else if k <= h then objs[h] == null
    else Skipped(objs, rev, h + 1, j, k)
  }

  /** The search skips a slot it should find exactly if one of its probes falls on such an empty slot. */
  lemma {:induction false} SkippedIff(objs: seq<Slot>, rev: nat, i: nat, j: nat, k: nat)
    requires Rising(objs) && i <= k < j <= |objs| && AtLeast(objs[k], rev)
    ensures k < Search(objs, rev, i, j) <==> Skipped(objs, rev, i, j, k)
    decreases j - i
  {
    var h := (i + j) / 2;
    if AtLeast(objs[h], rev) {
      if k < h { SkippedIff(objs, rev, i, h, k); }
    } else if k > h {
      SkippedIff(objs, rev, h + 1, j, k);
    }
  }

  /** Where there is no empty slot nothing is skipped. */
  lemma {:induction false} NoGapNoSkip(objs: seq<Slot>, rev: nat, i: nat, j: nat, k: nat)
    requires Rising(objs) && i <= k < j <= |objs| && AtLeast(objs[k], rev)
    requires forall x :: i <= x < j ==> objs[x] != null
    ensures !Skipped(objs, rev, i, j, k)
    decreases j - i
  {
    var h := (i + j) / 2;
    if AtLeast(objs[h], rev) {
      if k < h { NoGapNoSkip(objs, rev, i, h, k); }
    } else if k > h {
      NoGapNoSkip(objs, rev, h + 1, j, k);
    }
  }

  /** A list without gaps up to its middle skips nothing for a client that is not past the middle's version. */
  lemma LowerHalfDecides(objs: seq<Slot>, rev: nat, k: nat)
    requires Rising(objs) && k < |objs| && AtLeast(objs[k], rev) && AtLeast(objs[|objs| / 2], rev)
    requires forall x :: 0 <= x < |objs| / 2 ==> objs[x] != null
    ensures !Skipped(objs, rev, 0, |objs|, k)
  {
    if k < |objs| / 2 {
      NoGapNoSkip(objs, rev, 0, |objs| / 2, k);
    }
  }

  /** Over empty slots the search runs to the end. */
  lemma {:induction false} SearchOverEmpty(objs: seq<Slot>, rev: nat, i: nat, j: nat)
    requires i <= j <= |objs| && forall k :: i <= k < j ==> objs[k] == null
    ensures Search(objs, rev, i, j) == j
    decreases j - i
  {
    if i < j {
      SearchOverEmpty(objs, rev, (i + j) / 2 + 1, j);
    }
  }

  method BinarySearchInObjList(list: List, rev: nat) returns (index: nat)
    ensures index == Search(list.objs, rev, 0, |list.objs|)
  {
    var i, j := 0, |list.objs|;
    while i < j
      invariant 0 <= i <= j <= |list.objs|
      invariant Search(list.objs, rev, 0, |list.objs|) == Search(list.objs, rev, i, j)
      decreases j - i
    {
      var h := (i + j) / 2;
      var v := list.objs[h];
      if v == null || v.obj.version < rev {
        i := h + 1;
      } else {
        j := h;
      }
    }
    index := i;
  }

  /** `inclusive` is the match that asks for the given revision itself too. */
  method GetObjEventsAfterRev(list: List, key: string, rev: nat, inclusive: bool) returns (events: seq<ObjEvent>)
    ensures var lo := if inclusive then rev else rev + 1;
            events == Backlog(list.objs, Search(list.objs, rev, 0, |list.objs|), key, lo)
  {
    var lo := if inclusive then rev else rev + 1;
    var from := BinarySearchInObjList(list, rev);
    events := [];
    BacklogEmpty(list.objs, from, key, lo);
    for i := from to |list.objs|
      invariant events == Backlog(list.objs[..i], from, key, lo)
    {
      assert list.objs[..i + 1][..i] == list.objs[..i];
      var v := list.objs[i];
      if v == null || !(key <= v.obj.key) {
        continue;
      }
      var e := if v.deleted then ObjDeleted(v.obj.key, v.obj, v.obj.version)
               else ObjCreated(v.obj.key, v.obj, v.obj.version);
      if inclusive {
        if v.obj.version >= rev { events := events + [e]; }
      } else {
        if v.obj.version > rev { events := events + [e]; }
      }
    }
    assert list.objs[..|list.objs|] == list.objs;
  }

  lemma BacklogEmpty(objs: seq<Slot>, from: nat, key: string, lo: nat)
    requires from <= |objs|
    ensures Backlog(objs[..from], from, key, lo) == []
  {
  }

  /** A watched object that has changed since the client's revision. */
  predicate Changed(v: Slot, w: Watcher, key: string, r: nat) {
    v != null && !v.deleted && Tells(v, w, key, r + 1, v.obj.key)
  }

  /** The search skips no changed object that the client watches. */
  ghost predicate NoneSkipped(objs: seq<Slot>, w: Watcher, key: string, r: nat) {
    forall i :: 0 <= i < |objs| && Changed(objs[i], w, key, r) ==> !Skipped(objs, r, 0, |objs|, i)
  }

  /** A tombstone of the key that matches the selector is in the list, and the search does not skip it. */
  ghost predicate Buried(objs: seq<Slot>, w: Watcher, key: string, r: nat, lo: nat, k: string) {
    exists i :: 0 <= i < |objs| && Tells(objs[i], w, key, lo, k) && objs[i].deleted && !Skipped(objs, r, 0, |objs|, i)
  }

  /** The condition, said of the list alone. */
  lemma SearchedExactlyWhen(cur: Current, objs: seq<Slot>, last: nat, rev: nat, log: seq<ObjEvent>, w: Watcher,
      key: string, r: nat, lo: nat, n: nat)
    requires Situation(cur, objs, last, rev, log, w, key, r, lo, n)
    ensures Replay(View(w, Stored(log[..n])), Output(w, Backlog(objs, Search(objs, r, 0, |objs|), key, lo))) ==
              View(w, Stored(log)) <==>
            NoneSkipped(objs, w, key, r) && forall k :: Left(w, log, n, k) ==> Buried(objs, w, key, r, lo, k)
  {
    hide Replay, Output, Backlog, View, Stored, LogAgrees, Lists, TombsOlder;
    var from := Search(objs, r, 0, |objs|);
    ResumesExactlyWhen(cur, objs, last, rev, log, w, key, r, lo, n, from);
    forall k: string
      ensures Told(Masked(objs, from), w, key, lo, k, true) <==> Buried(objs, w, key, r, lo, k)
    {
      TombFound(objs, w, key, r, lo, k);
    }
    MissedIff(objs, w, key, r);
    hide Told, Buried, Missed, NoneSkipped, Left, Situation;
    if forall k :: CatchesUpAt(objs, from, log, w, key, r, lo, n, k) {
      forall k: string
        ensures !Missed(objs, from, w, key, r, k) && (Left(w, log, n, k) ==> Buried(objs, w, key, r, lo, k))
      {
        assert CatchesUpAt(objs, from, log, w, key, r, lo, n, k);
      }
    }
  }

  lemma MissedIff(objs: seq<Slot>, w: Watcher, key: string, r: nat)
    requires Rising(objs)
    ensures NoneSkipped(objs, w, key, r) <==> forall k :: !Missed(objs, Search(objs, r, 0, |objs|), w, key, r, k)
  {
    hide Search, Skipped;
    var from := Search(objs, r, 0, |objs|);
    forall i | 0 <= i < |objs| && Changed(objs[i], w, key, r)
      ensures i < from <==> Skipped(objs, r, 0, |objs|, i)
    {
      SkippedIff(objs, r, 0, |objs|, i);
    }
    if k :| Missed(objs, from, w, key, r, k) {
      var i :| 0 <= i < |objs| && i < from && Tells(objs[i], w, key, r + 1, k) && !objs[i].deleted;
      assert Changed(objs[i], w, key, r);
    }
    if i :| 0 <= i < |objs| && Changed(objs[i], w, key, r) && i < from {
      assert Missed(objs, from, w, key, r, objs[i].obj.key);
    }
  }

  lemma TombFound(objs: seq<Slot>, w: Watcher, key: string, r: nat, lo: nat, k: string)
    requires Rising(objs) && r <= lo
    ensures Told(Masked(objs, Search(objs, r, 0, |objs|)), w, key, lo, k, true) <==> Buried(objs, w, key, r, lo, k)
  {
    hide Search, Skipped;
    var from := Search(objs, r, 0, |objs|);
    var m := Masked(objs, from);
    forall i | 0 <= i < |objs| && Tells(objs[i], w, key, lo, k)
      ensures i < from <==> Skipped(objs, r, 0, |objs|, i)
    {
      SkippedIff(objs, r, 0, |objs|, i);
    }
    if i :| 0 <= i < |objs| && Tells(objs[i], w, key, lo, k) && objs[i].deleted && !Skipped(objs, r, 0, |objs|, i) {
      assert m[i] == objs[i];
    }
    if i :| 0 <= i < |m| && Tells(m[i], w, key, lo, k) && m[i].deleted {
      assert m[i] == objs[i] && i >= from;
    }
  }

  /** While at most half of the list is in use, a client that resumes is told nothing at all. */
  lemma HalfEmptyListTellsNothing(objs: seq<Slot>, key: string, rev: nat, lo: nat)
    requires objs != [] && EmptyFrom(objs, |objs| / 2)
    ensures Backlog(objs, Search(objs, rev, 0, |objs|), key, lo) == []
  {
    SearchOverEmpty(objs, rev, |objs| / 2 + 1, |objs|);
    BacklogEmpty(objs, |objs|, key, lo);
    assert objs[..|objs|] == objs;
  }

  /** In such a store a client catches up exactly if it has nothing to catch up with. */
  lemma YoungStoreExactlyWhen(cur: Current, objs: seq<Slot>, last: nat, rev: nat, log: seq<ObjEvent>, w: Watcher,
      key: string, r: nat, lo: nat, n: nat)
    requires Situation(cur, objs, last, rev, log, w, key, r, lo, n) && last < |objs| / 2
    ensures Replay(View(w, Stored(log[..n])), Output(w, Backlog(objs, Search(objs, r, 0, |objs|), key, lo))) ==
              View(w, Stored(log)) <==>
            View(w, Stored(log[..n])) == View(w, Stored(log))
  {
    HalfEmptyListTellsNothing(objs, key, r, lo);
  }

  /** A new store, one object later: a client that was in step before is told nothing and does not see it. */
  method ClientLeftBehind(startRev: nat, key: string, content: string) returns (store: Store, events: seq<ObjEvent>)
    ensures fresh(store) && store.Valid() && events == []
    ensures var w := Watcher("", true, None);
            && View(w, Stored(store.log[..0])) == map[] && key in View(w, Stored(store.log))
            && Replay(View(w, Stored(store.log[..0])), Output(w, events)) != View(w, Stored(store.log))
  {
    hide LogAgrees, ListAgrees, ObjStoreMap.Valid, Indexed, Backlog, Search, Found;
    store := new Store(startRev);
    NothingThere(key);
    var r := store.Create(key, content);
    events := GetObjEventsAfterRev(store.list, "", startRev, false);
    YoungList(store.kvs.view.objs, store.list.objs, store.list.lastObjIndex, store.rev, startRev);
    assert store.log[..0] == [];
  }

  lemma NothingThere(key: string)
    ensures !Found(Flat({Root}, map[]), key) && At(key) != Root
  {
  }

  lemma YoungList(cur: Current, objs: seq<Slot>, last: nat, rev: nat, startRev: nat)
    requires ListAgrees(cur, objs, last, rev) && last < |objs| / 2
    ensures Backlog(objs, Search(objs, startRev, 0, |objs|), "", startRev + 1) == []
  {
    HalfEmptyListTellsNothing(objs, "", startRev, startRev + 1);
  }
}
