/**
  The in-memory store as a whole: the trie of current objects, the revision-ordered list that serves
  list calls, the revision counter, and the stream of events. Every operation keeps them in
  agreement, so that listing the store, reading it and replaying its event stream give the same answer.
 */
module MemoryStore {
  import opened Common
  import opened StoreMap
  import opened ObjList
  import opened Watch

  const INIT_SIZE: nat := 20000
  const GROW_STEP: nat := 10000
  const SHRINK_LOW: nat := 10000
  const SHRINK_HIGH: nat := 20000

  // ---------- Keys ----------

  /** `strings.Split(key, "/")`. */
  function Split(key: string): (parts: seq<string>)
    ensures parts != []
  {
    if key == "" then [""]
    else
      var rest := Split(key[1..]);
      if key[0] == '/' then [""] + rest else [[key[0]] + rest[0]] + rest[1..]
  }

  function Join(parts: seq<string>): string
    requires parts != []
  {
    if |parts| == 1 then parts[0] else parts[0] + "/" + Join(parts[1..])
  }

  lemma {:induction false} JoinSplit(key: string)
    ensures Join(Split(key)) == key
  {
    if key != "" {
      JoinSplit(key[1..]);
      var rest := Split(key[1..]);
      if key[0] == '/' {
        assert ([""] + rest)[1..] == rest;
        assert key == "/" + key[1..];
      } else {
        assert ([[key[0]] + rest[0]] + rest[1..])[1..] == rest[1..];
        assert key == [key[0]] + key[1..];
      }
    }
  }

  /** The place of a key in the trie. */
  function At(key: string): Path {
    PathOf(Split(key))
  }

  /** Different keys have different places. */
  lemma AtInjective(a: string, b: string)
    requires At(a) == At(b)
    ensures a == b
  {
    PathOfInjective(Split(a), Split(b));
    JoinSplit(a);
    JoinSplit(b);
  }

  // ---------- Agreement of the parts ----------

  type Current = map<Path, ObjWithIndex>

  predicate Rising(objs: seq<Slot>) {
    forall i, j :: 0 <= i < j < |objs| && objs[i] != null && objs[j] != null ==>
      objs[i].obj.version < objs[j].obj.version
  }

  /** In use up to `last`, in the order of versions, none above `rev`. */
  predicate Ordered(objs: seq<Slot>, last: nat, rev: nat) {
    && last < |objs|
    && (forall i :: last < i < |objs| ==> objs[i] == null)
    && (forall i :: 0 <= i < |objs| && objs[i] != null ==> 0 < objs[i].obj.version <= rev)
    && Rising(objs)
  }

  /** The objects in the list that are not tombstones are exactly the current ones. */
  ghost predicate Lists(cur: Current, objs: seq<Slot>) {
    && (forall p :: p in cur ==> cur[p] in objs && !cur[p].deleted && At(cur[p].obj.key) == p)
    && (forall i :: 0 <= i < |objs| && objs[i] != null && !objs[i].deleted ==>
          At(objs[i].obj.key) in cur && cur[At(objs[i].obj.key)] == objs[i])
  }

  /** A tombstone is older than the object that was stored again under its key. */
  predicate TombsOlder(cur: Current, objs: seq<Slot>) {
    forall i :: 0 <= i < |objs| && objs[i] != null && objs[i].deleted && At(objs[i].obj.key) in cur ==>
      objs[i].obj.version < cur[At(objs[i].obj.key)].obj.version
  }

  /** The list holds each current object once, tombstones, and gaps, in the order of their versions. */
  ghost predicate ListAgrees(cur: Current, objs: seq<Slot>, last: nat, rev: nat) {
    Ordered(objs, last, rev) && Lists(cur, objs) && TombsOlder(cur, objs)
  }

  /** What an event stores carries the event's revision as its version. */
  predicate Stamped(log: seq<ObjEvent>) {
    forall i :: 0 <= i < |log| && !log[i].ObjDeleted? ==> log[i].obj.version == log[i].rev
  }

  /** The event stream is well formed and adds up to the current objects. */
  ghost predicate LogAgrees(cur: Current, log: seq<ObjEvent>, rev: nat) {
    && WellFormedLog(log) && RevisionsRise(log) && Stamped(log)
    && (forall i :: 0 <= i < |log| ==> log[i].rev <= rev)
    && (forall k :: k in Stored(log) <==> At(k) in cur)
    && (forall k :: k in Stored(log) ==> Stored(log)[k] == cur[At(k)].obj)
  }

  /** Reserving the next slot, with the list grown if need be. */
  lemma ReserveKeeps(cur: Current, objs: seq<Slot>, last: nat, rev: nat, more: nat)
    requires ListAgrees(cur, objs, last, rev) && last + 1 < |objs| + more
    ensures ListAgrees(cur, objs + Nils(more), last + 1, rev)
    ensures (objs + Nils(more))[last + 1] == null
  {
    var objs' := objs + Nils(more);
    forall p | p in cur
      ensures cur[p] in objs'
    {
      var i :| 0 <= i < |objs| && objs[i] == cur[p];
      assert objs'[i] == cur[p];
    }
  }

  lemma NewerRevision(cur: Current, objs: seq<Slot>, last: nat, log: seq<ObjEvent>, rev: nat)
    ensures ListAgrees(cur, objs, last, rev) ==> ListAgrees(cur, objs, last, rev + 1)
    ensures LogAgrees(cur, log, rev) ==> LogAgrees(cur, log, rev + 1)
  {
  }

  /**
    A new object, or the tombstone of a removed one, goes into the reserved slot; the slot of the old one is
    emptied.
   */
  function Placed(objs: seq<Slot>, last: nat, o: ObjWithIndex, old_: Option<nat>): seq<Slot>
  {
    if |objs| <= last then objs
    else if old_.Some? && old_.value < |objs| then objs[old_.value := null][last := o]
    else objs[last := o]
  }

  /**
    What a write does to the list: the new object, or tombstone, is in slot `at`, the slot of the object it
    supersedes is empty, and the others are as they were; the list grew by at most one step.
   */
  ghost predicate Took(before: seq<Slot>, after: seq<Slot>, at: nat, obj: ApiObject, deleted: bool,
      emptied: Option<nat>) {
    && |before| <= |after| <= |before| + GROW_STEP && at < |after| && emptied != Some(at)
    && after[at] != null && after[at].obj == obj && after[at].deleted == deleted
    && forall i :: 0 <= i < |after| && i != at ==>
         after[i] == if i < |before| && emptied != Some(i) then before[i] else null
  }

  lemma PlacedTook(before: seq<Slot>, reserved: seq<Slot>, last: nat, o: ObjWithIndex, old_: Option<nat>)
    requires before <= reserved && |reserved| <= |before| + GROW_STEP && last < |reserved| && reserved[last] == null
    requires forall i :: |before| <= i < |reserved| ==> reserved[i] == null
    requires old_.Some? ==> old_.value < |before| && before[old_.value] != null
    ensures Took(before, Placed(reserved, last, o, old_), last, o.obj, o.deleted, old_)
  {
  }

  function Updated(cur: Current, o: ObjWithIndex): Current {
    if o.deleted then cur - {At(o.obj.key)} else cur[At(o.obj.key) := o]
  }

  /** `o` may be placed: it is new, of the reserved version, and `old_` is the slot of the object it supersedes. */
  ghost predicate CanPlace(cur: Current, objs: seq<Slot>, last: nat, rev: nat, o: ObjWithIndex, old_: Option<nat>) {
    && ListAgrees(cur, objs, last, rev) && objs[last] == null && o !in objs && o.obj.version == rev + 1
    && match old_
       case None => !o.deleted && At(o.obj.key) !in cur
       case Some(i) => i < |objs| && At(o.obj.key) in cur && objs[i] == cur[At(o.obj.key)]
  }

  lemma CurrentIsPlaced(cur: Current, objs: seq<Slot>, last: nat, rev: nat, o: ObjWithIndex, old_: Option<nat>, p: Path)
    requires CanPlace(cur, objs, last, rev, o, old_) && p in Updated(cur, o)
    ensures Updated(cur, o)[p] in Placed(objs, last, o, old_)
    ensures !Updated(cur, o)[p].deleted && At(Updated(cur, o)[p].obj.key) == p
  {
    var objs' := Placed(objs, last, o, old_);
    assert objs'[last] == o;
    if p != At(o.obj.key) {
      var i :| 0 <= i < |objs| && objs[i] == cur[p];
      assert objs'[i] == cur[p];
    }
  }

  lemma PlacedIsCurrent(cur: Current, objs: seq<Slot>, last: nat, rev: nat, o: ObjWithIndex, old_: Option<nat>, i: nat)
    requires CanPlace(cur, objs, last, rev, o, old_) && i < |Placed(objs, last, o, old_)|
    requires Placed(objs, last, o, old_)[i] != null && !Placed(objs, last, o, old_)[i].deleted
    ensures var v := Placed(objs, last, o, old_)[i];
            At(v.obj.key) in Updated(cur, o) && Updated(cur, o)[At(v.obj.key)] == v
  {
    var v := Placed(objs, last, o, old_)[i];
    if i != last {
      assert v == objs[i] && cur[At(v.obj.key)] == v;
    }
  }

  lemma PlaceKeepsLists(cur: Current, objs: seq<Slot>, last: nat, rev: nat, o: ObjWithIndex, old_: Option<nat>)
    requires CanPlace(cur, objs, last, rev, o, old_)
    ensures Lists(Updated(cur, o), Placed(objs, last, o, old_))
  {
    hide CanPlace, Placed, Updated, At;
    var objs', cur' := Placed(objs, last, o, old_), Updated(cur, o);
    forall p | p in cur'
      ensures cur'[p] in objs' && !cur'[p].deleted && At(cur'[p].obj.key) == p
    {
      CurrentIsPlaced(cur, objs, last, rev, o, old_, p);
    }
    forall i | 0 <= i < |objs'| && objs'[i] != null && !objs'[i].deleted
      ensures At(objs'[i].obj.key) in cur' && cur'[At(objs'[i].obj.key)] == objs'[i]
    {
      PlacedIsCurrent(cur, objs, last, rev, o, old_, i);
    }
  }

  lemma PlaceKeepsOrder(objs: seq<Slot>, last: nat, rev: nat, o: ObjWithIndex, old_: Option<nat>)
    requires Ordered(objs, last, rev) && o.obj.version == rev + 1 && (old_.Some? ==> old_.value < |objs|)
    ensures Ordered(Placed(objs, last, o, old_), last, rev + 1)
  {
    var objs' := Placed(objs, last, o, old_);
    assert forall i :: 0 <= i < |objs| && i != last && objs'[i] != null ==> objs'[i] == objs[i];
  }

  lemma PlaceKeeps(cur: Current, objs: seq<Slot>, last: nat, rev: nat, o: ObjWithIndex, old_: Option<nat>)
    requires CanPlace(cur, objs, last, rev, o, old_)
    ensures ListAgrees(Updated(cur, o), Placed(objs, last, o, old_), last, rev + 1)
  {
    hide Ordered, Lists, TombsOlder;
    PlaceKeepsLists(cur, objs, last, rev, o, old_);
    PlaceKeepsOrder(objs, last, rev, o, old_);
    PlaceKeepsTombs(cur, objs, last, rev, o, old_);
  }

  lemma PlaceKeepsTombs(cur: Current, objs: seq<Slot>, last: nat, rev: nat, o: ObjWithIndex, old_: Option<nat>)
    requires CanPlace(cur, objs, last, rev, o, old_)
    ensures TombsOlder(Updated(cur, o), Placed(objs, last, o, old_))
  {
    hide At, Lists;
    var objs', cur' := Placed(objs, last, o, old_), Updated(cur, o);
    forall i | 0 <= i < |objs'| && objs'[i] != null && objs'[i].deleted && At(objs'[i].obj.key) in cur'
      ensures objs'[i].obj.version < cur'[At(objs'[i].obj.key)].obj.version
    {
      assert i == last || objs'[i] == objs[i];
    }
  }

  // Compaction keeps the agreement.

  lemma {:induction false} CompactRising(s: seq<Slot>, drop: nat)
    requires Rising(s)
    ensures Rising(Compact(s, drop))
  {
    if s != [] {
      var rest := Compact(s[1..], if Dead(s[0]) && 0 < drop then drop - 1 else drop);
      CompactRising(s[1..], if Dead(s[0]) && 0 < drop then drop - 1 else drop);
      if !(Dead(s[0]) && 0 < drop) && s[0] != null {
        forall j | 0 <= j < |rest| && rest[j] != null
          ensures s[0].obj.version < rest[j].obj.version
        {
          CompactFrom(s[1..], drop, rest[j]);
        }
      }
    }
  }

  lemma {:induction false} LiveIsKept(s: seq<Slot>, drop: nat, v: Slot)
    requires v in s && !Dead(v)
    ensures v in Compact(s, drop)
  {
    if v != s[0] {
      LiveIsKept(s[1..], if Dead(s[0]) && 0 < drop then drop - 1 else drop, v);
    }
  }

  lemma EmptyAfter(objs: seq<Slot>, last: nat, rev: nat)
    requires Ordered(objs, last, rev)
    ensures EmptyFrom(objs, last + 1)
  {
  }

  lemma CompactKeepsOrder(objs: seq<Slot>, last: nat, rev: nat, drop: nat)
    requires Ordered(objs, last, rev) && Compact(objs, drop) != []
    ensures Ordered(Compact(objs, drop), LastUsed(Compact(objs, drop)), rev)
  {
    var c := Compact(objs, drop);
    CompactRising(objs, drop);
    NothingAfterLast(c);
    forall i | 0 <= i < |c| && c[i] != null
      ensures 0 < c[i].obj.version <= rev
    {
      CompactFrom(objs, drop, c[i]);
    }
  }

  lemma CompactKeepsLists(cur: Current, objs: seq<Slot>, drop: nat)
    requires Lists(cur, objs)
    ensures Lists(cur, Compact(objs, drop))
  {
    var c := Compact(objs, drop);
    forall p | p in cur
      ensures cur[p] in c
    {
      LiveIsKept(objs, drop, cur[p]);
    }
    forall i | 0 <= i < |c| && c[i] != null && !c[i].deleted
      ensures At(c[i].obj.key) in cur && cur[At(c[i].obj.key)] == c[i]
    {
      CompactFrom(objs, drop, c[i]);
    }
  }

  lemma CompactKeepsTombs(cur: Current, objs: seq<Slot>, drop: nat)
    requires TombsOlder(cur, objs)
    ensures TombsOlder(cur, Compact(objs, drop))
  {
    hide At;
    var c := Compact(objs, drop);
    forall i | 0 <= i < |c| && c[i] != null && c[i].deleted && At(c[i].obj.key) in cur
      ensures c[i].obj.version < cur[At(c[i].obj.key)].obj.version
    {
      CompactFrom(objs, drop, c[i]);
    }
  }

  /** The event that reports the placing. */
  ghost predicate Reports(cur: Current, o: ObjWithIndex, e: ObjEvent) {
    && e.key == o.obj.key && e.rev == o.obj.version
    && match e
       case ObjCreated(_, obj, _) => !o.deleted && obj == o.obj && At(e.key) !in cur
       case ObjUpdated(_, obj, old_, _) => !o.deleted && obj == o.obj && At(e.key) in cur && old_ == cur[At(e.key)].obj
       case ObjDeleted(_, old_, _) =>
         o.deleted && At(e.key) in cur && old_ == o.obj && old_.content == cur[At(e.key)].obj.content
  }

  lemma LogKeeps(cur: Current, log: seq<ObjEvent>, rev: nat, o: ObjWithIndex, e: ObjEvent)
    requires LogAgrees(cur, log, rev) && o.obj.version == rev + 1 && Reports(cur, o, e)
    ensures LogAgrees(Updated(cur, o), log + [e], rev + 1)
    ensures Stored(log + [e]) == ApplyEvent(Stored(log), e)
  {
    var log' := log + [e];
    assert log'[..|log|] == log;
    forall k: string
      ensures k in Stored(log') <==> At(k) in Updated(cur, o)
      ensures k in Stored(log') ==> Stored(log')[k] == Updated(cur, o)[At(k)].obj
    {
      if At(k) == At(e.key) { AtInjective(k, e.key); }
    }
  }

  // ---------- The store ----------

  datatype Result = Done | KeyExists | NotFound | Rejected | PutFailed(error: Error)

  /** Some stored path is the key's, or lies on the way to it. */
  ghost predicate Found(f: Flat, key: string) {
    exists j :: 0 < j <= |Split(key)| && Upto(Split(key), j) in f.objs
  }

  class Store {
    const kvs: ObjStoreMap
    const list: List
    var rev: nat
    var log: seq<ObjEvent>

    constructor (startRev: nat)
      ensures Valid() && rev == startRev && log == [] && kvs.view == Flat({Root}, map[])
      ensures fresh(kvs.repr) && fresh(list) && list.objs == Nils(INIT_SIZE) && list.lastObjIndex == 0
    {
      kvs := new ObjStoreMap(Root);
      list := new List(INIT_SIZE);
      rev := startRev;
      log := [];
      new;
      assert Rising(list.objs);
    }

    ghost predicate Valid()
      reads this, list, list.objs, kvs, kvs.repr
    {
      && kvs.Valid()
      && Indexed(list.objs) && list.lastObjIndex + GROW_STEP <= |list.objs|
      && ListAgrees(kvs.view.objs, list.objs, list.lastObjIndex, rev)
      && LogAgrees(kvs.view.objs, log, rev)
    }

    /** Takes the next revision and the next slot of the list, growing the list when it runs short. */
    method ReserveRevAndSlot() returns (newRev: nat, index: nat)
      requires Valid()
      modifies this`rev, list
      ensures Valid() && newRev == rev == old(rev) + 1 && index == list.lastObjIndex == old(list.lastObjIndex) + 1
      ensures ListAgrees(kvs.view.objs, list.objs, index, old(rev)) && list.objs[index] == null
      ensures old(list.objs) <= list.objs && forall i :: |old(list.objs)| <= i < |list.objs| ==> list.objs[i] == null
      ensures |list.objs| <= |old(list.objs)| + GROW_STEP
    {
      hide ListAgrees, LogAgrees, Shape, FlatOf;
      ghost var cur, before := kvs.view.objs, list.objs;
      newRev := rev + 1;
      index := list.lastObjIndex + 1;
      rev := newRev;
      list.lastObjIndex := index;
      ghost var more := 0;
      if |list.objs| < index + GROW_STEP {
        list.Grow(GROW_STEP);
        more := GROW_STEP;
      }
      InUse(cur, before, index - 1, old(rev));
      ReserveKeeps(cur, before, index - 1, old(rev), more);
      assert list.objs == before + Nils(more);
      NewerRevision(cur, list.objs, index, log, old(rev));
    }

    /** Moves a write that the trie accepted into the list and the event stream. */
    method Commit(o: ObjWithIndex, superseded: Option<nat>, event: ObjEvent, ghost cur: Current)
      requires kvs.Valid() && kvs.view.objs == Updated(cur, o)
      requires Indexed(list.objs) && 0 < rev && o.index == list.lastObjIndex
               && list.lastObjIndex + GROW_STEP <= |list.objs|
      requires CanPlace(cur, list.objs, list.lastObjIndex, rev - 1, o, superseded)
      requires LogAgrees(cur, log, rev - 1) && Reports(cur, o, event)
      modifies this`log, list`objs
      ensures Valid() && rev == old(rev) && log == old(log) + [event]
      ensures list.objs == Placed(old(list.objs), list.lastObjIndex, o, superseded)
      ensures Stored(log) == ApplyEvent(old(Stored(log)), event)
    {
      hide LogAgrees, Shape, FlatOf, Reports, ListAgrees, Updated, ApplyEvent, Stored, CanPlace;
      PlaceBounds(cur, list.objs, list.lastObjIndex, rev - 1, o, superseded);
      LogKeeps(cur, log, rev - 1, o, event);
      PlaceKeeps(cur, list.objs, list.lastObjIndex, rev - 1, o, superseded);
      if superseded.Some? {
        list.objs := list.objs[superseded.value := null];
      }
      list.objs := list.objs[o.index := o];
      log := log + [event];
    }

    method Create(key: string, content: string) returns (res: Result)
      requires Valid()
      modifies this, list, kvs.repr
      ensures Valid() && fresh(kvs.repr - old(kvs.repr)) && old(rev) <= rev
      ensures list.lastObjIndex <= old(list.lastObjIndex) + 1 && |old(list.objs)| <= |list.objs|
      ensures res == if Found(old(kvs.view), key) then KeyExists
                     else if At(key) in old(kvs.view).dirs then PutFailed(LeafIsMap) else Done
      ensures res.Done? ==>
                && rev == old(rev) + 1 && list.lastObjIndex == old(list.lastObjIndex) + 1
                && Took(old(list.objs), list.objs, list.lastObjIndex, ApiObject(key, content, rev), false, None)
                && kvs.view.dirs == old(kvs.view).dirs + PathsAbove(Split(key), |Split(key)|)
                && kvs.view.objs.Keys == old(kvs.view).objs.Keys + {At(key)}
      ensures log == if res.Done? then old(log) + [ObjCreated(key, ApiObject(key, content, rev), rev)] else old(log)
      ensures Stored(log) == if res.Done?
                             then old(Stored(log))[key := ApiObject(key, content, rev)] else old(Stored(log))
    {
      hide LogAgrees, Shape, FlatOf, ListAgrees, Upto, PathsAbove, ObjectOnTheWay, Stored, Split;
      var keys := Split(key);
      ghost var f := kvs.view;
      var found := kvs.Get(keys);
      if found != null {
        return KeyExists;
      }
      NothingFound(f, key);
      var newRev, index := ReserveRevAndSlot();
      var o := new ObjWithIndex(ApiObject(key, content, newRev), index, false);
      var r := kvs.Put(keys, o, 0);
      if r.Err? {
        return PutFailed(r.error);
      }
      PlacedTook(old(list.objs), list.objs, index, o, None);
      Commit(o, None, ObjCreated(key, o.obj, newRev), f.objs);
      res := Done;
    }

    /** What a walk along the key finds: the object under it, with its slot in the list, or one on the way to it. */
    method LookUp(key: string) returns (found: ObjWithIndex?)
      requires Valid()
      ensures found == null <==> !Found(kvs.view, key)
      ensures found != null ==> found.index < |list.objs| && list.objs[found.index] == found
      ensures At(key) in kvs.view.objs ==> found != null
      ensures found != null && At(key) in kvs.view.objs ==>
                && kvs.view.objs[At(key)] == found
                && key in Stored(log) && Stored(log)[key] == found.obj
                && DelOutcome(kvs.view, Split(key)) == Ok && PutOutcome(kvs.view, Split(key), found.obj.version) == Ok
      ensures found != null && At(key) !in kvs.view.objs ==>
                && DelOutcome(kvs.view, Split(key)) == Err(MiddleIsObject)
                && PutOutcome(kvs.view, Split(key), found.obj.version) == Err(MiddleIsObject)
    {
      hide LogAgrees, ObjStoreMap.Valid, ListAgrees, Upto, PathsAbove, PutOutcome, DelOutcome, Stored, Split, Indexed;
      kvs.AbsWellFormed();
      found := kvs.Get(Split(key));
      if found == null {
        NothingFound(kvs.view, key);
      } else {
        SomethingFound(kvs.view, key, found);
        ghost var j :| 0 < j <= |Split(key)| && OnlyStored(kvs.view, Split(key), j)
          && kvs.view.objs[Upto(Split(key), j)] == found;
        SlotOf(kvs.view.objs, list.objs, list.lastObjIndex, rev, Upto(Split(key), j));
        if At(key) in kvs.view.objs {
          StoredAt(kvs.view.objs, log, rev, key);
        }
      }
    }

    /** `accept` is the verdict of the caller's preconditions and update function on the object found. */
    method Update(key: string, content: string, accept: bool) returns (res: Result)
      requires Valid()
      modifies this, list, kvs.repr
      ensures Valid() && fresh(kvs.repr - old(kvs.repr)) && old(rev) <= rev
      ensures list.lastObjIndex <= old(list.lastObjIndex) + 1 && |old(list.objs)| <= |list.objs|
      ensures res == if !Found(old(kvs.view), key) then NotFound else if !accept then Rejected
                     else if At(key) in old(kvs.view).objs then Done else PutFailed(MiddleIsObject)
      ensures res.Done? ==> key in old(Stored(log))
      ensures res.Done? ==>
                && rev == old(rev) + 1 && list.lastObjIndex == old(list.lastObjIndex) + 1
                && Took(old(list.objs), list.objs, list.lastObjIndex, ApiObject(key, content, rev), false,
                        Some(old(kvs.view.objs[At(key)].index)))
      ensures log == if res.Done?
                     then old(log) + [ObjUpdated(key, ApiObject(key, content, rev), old(Stored(log))[key], rev)]
                     else old(log)
      ensures Stored(log) == if res.Done?
                             then old(Stored(log))[key := ApiObject(key, content, rev)] else old(Stored(log))
    {
      hide LogAgrees, ObjStoreMap.Valid, ListAgrees, PathsAbove, PutOutcome, DelOutcome, Stored, Split, Indexed, Found;
      var keys := Split(key);
      ghost var f := kvs.view;
      var found := LookUp(key);
      if found == null {
        return NotFound;
      }
      if !accept {
        return Rejected;
      }
      var newRev, index := ReserveRevAndSlot();
      var o := new ObjWithIndex(ApiObject(key, content, newRev), index, false);
      var r := kvs.Put(keys, o, found.obj.version);
      if r.Err? {
        return PutFailed(r.error);
      }
      PlacedTook(old(list.objs), list.objs, index, o, Some(found.index));
      Commit(o, Some(found.index), ObjUpdated(key, o.obj, found.obj, newRev), f.objs);
      res := Done;
    }

    method Delete(key: string, accept: bool) returns (res: Result)
      requires Valid()
      modifies this, list, kvs.repr
      ensures Valid() && kvs.repr == old(kvs.repr) && old(rev) <= rev
      ensures list.lastObjIndex <= old(list.lastObjIndex) + 1 && |old(list.objs)| <= |list.objs|
      ensures res == if !Found(old(kvs.view), key) then NotFound else if !accept then Rejected
                     else if At(key) in old(kvs.view).objs then Done else PutFailed(MiddleIsObject)
      ensures res.Done? ==> key in old(Stored(log))
      ensures res.Done? ==>
                && rev == old(rev) + 1 && list.lastObjIndex == old(list.lastObjIndex) + 1
                && Took(old(list.objs), list.objs, list.lastObjIndex,
                        ApiObject(key, old(Stored(log))[key].content, rev), true,
                        Some(old(kvs.view.objs[At(key)].index)))
      ensures log == if res.Done?
                     then old(log) + [ObjDeleted(key, ApiObject(key, old(Stored(log))[key].content, rev), rev)]
                     else old(log)
      ensures Stored(log) == if res.Done? then old(Stored(log)) - {key} else old(Stored(log))
    {
      hide LogAgrees, ObjStoreMap.Valid, ListAgrees, PathsAbove, PutOutcome, DelOutcome, Stored, Split, Indexed, Found;
      var keys := Split(key);
      ghost var f := kvs.view;
      var found := LookUp(key);
      if found == null {
        return NotFound;
      }
      if !accept {
        return Rejected;
      }
      var newRev, index := ReserveRevAndSlot();
      var o := new ObjWithIndex(ApiObject(key, found.obj.content, newRev), index, true);
      var r := kvs.Del(keys);
      if r.Err? {
        return PutFailed(r.error);
      }
      PlacedTook(old(list.objs), list.objs, index, o, Some(found.index));
      Commit(o, Some(found.index), ObjDeleted(key, o.obj, newRev), f.objs);
      res := Done;
    }

    /** Compacts the list when it has grown far beyond the number of stored objects. */
    method HouseKeeping()
      requires Valid() && |list.objs| < MODULUS
      modifies list, list.objs
      ensures Valid() && Live(list.objs) == old(Live(list.objs))
      ensures old(list.lastObjIndex) <= |kvs.view.objs| + SHRINK_HIGH ==> list.objs == old(list.objs)
      ensures old(list.lastObjIndex) > |kvs.view.objs| + SHRINK_HIGH ==>
                |list.objs| == |kvs.view.objs| + SHRINK_LOW && DeadCount(list.objs[..list.lastObjIndex + 1]) <= 1
    {
      hide LogAgrees, ObjStoreMap.Valid, Lists, Ordered, TombsOlder;
      hide EmptyFrom, Compact, DeadCount, Live, LastUsed, Shrunk;
      kvs.AbsWellFormed();
      InUse(kvs.view.objs, list.objs, list.lastObjIndex, rev);
      var c := kvs.CountItemsInMap(kvs, Root);
      if list.lastObjIndex > c + SHRINK_HIGH {
        ghost var before, drop := list.objs, |list.objs| - (c + SHRINK_LOW);
        ShrinkToShorter(before, c + SHRINK_LOW);
        AllButCurrent(kvs.view.objs, before, list.lastObjIndex, rev);
        EmptyAfter(before, list.lastObjIndex, rev);
        CompactLeavesOne(before, list.lastObjIndex, drop, SHRINK_LOW);
        CompactKeepsOrder(before, list.lastObjIndex, rev, drop);
        CompactKeepsLists(kvs.view.objs, before, drop);
        CompactKeepsTombs(kvs.view.objs, before, drop);
        list.Shrink(c + SHRINK_LOW);
      }
    }

    /** A full list call: the watched objects, oldest version first. */
    method GetList(w: Watcher) returns (items: seq<ApiObject>)
      requires Valid() && w.recursive
      ensures forall i, j :: 0 <= i < j < |items| ==> items[i].version < items[j].version
      ensures forall k :: k in View(w, Stored(log)) ==> View(w, Stored(log))[k] in items
      ensures forall o :: o in items ==> o.key in View(w, Stored(log)) && View(w, Stored(log))[o.key] == o
    {
      hide LogAgrees, ObjStoreMap.Valid, Lists, Ordered, TombsOlder;
      InUse(kvs.view.objs, list.objs, list.lastObjIndex, rev);
      items := [];
      var i := 0;
      while i <= list.lastObjIndex
        invariant i <= list.lastObjIndex + 1
        invariant items == Selected(list.objs[..i], w)
      {
        var v := list.objs[i];
        SelectedSnoc(list.objs[..i], v, w);
        assert list.objs[..i + 1] == list.objs[..i] + [v];
        if v != null && v.deleted == false {
          if w.keyPrefix <= v.obj.key && w.Filter(v.obj) {
            items := items + [v.obj];
          }
        }
        i := i + 1;
      }
      ListMeetsView(kvs.view.objs, list.objs, list.lastObjIndex, rev, log, w);
    }
  }

  /** The selected live objects of a stretch of the list, in order. */
  function Selected(objs: seq<Slot>, w: Watcher): seq<ApiObject> {
    if objs == [] then []
    else
      var v := objs[|objs| - 1];
      Selected(objs[..|objs| - 1], w) +
      if v != null && !v.deleted && w.keyPrefix <= v.obj.key && w.Filter(v.obj) then [v.obj] else []
  }

  lemma SelectedSnoc(objs: seq<Slot>, v: Slot, w: Watcher)
    ensures Selected(objs + [v], w) == Selected(objs, w) +
            if v != null && !v.deleted && w.keyPrefix <= v.obj.key && w.Filter(v.obj) then [v.obj] else []
  {
    assert (objs + [v])[..|objs|] == objs;
  }

  lemma {:induction false} SelectedFrom(objs: seq<Slot>, w: Watcher, o: ApiObject)
    ensures o in Selected(objs, w) <==>
            exists i :: 0 <= i < |objs| && objs[i] != null && !objs[i].deleted && objs[i].obj == o
                        && w.keyPrefix <= o.key && w.Filter(o)
  {
    if objs != [] {
      SelectedFrom(objs[..|objs| - 1], w, o);
    }
  }

  lemma {:induction false} SelectedRises(objs: seq<Slot>, w: Watcher)
    requires Rising(objs)
    ensures forall i, j :: 0 <= i < j < |Selected(objs, w)| ==>
              Selected(objs, w)[i].version < Selected(objs, w)[j].version
  {
    if objs != [] {
      var front, v := objs[..|objs| - 1], objs[|objs| - 1];
      SelectedRises(front, w);
      var s := Selected(front, w);
      if v != null {
        forall i | 0 <= i < |s|
          ensures s[i].version < v.obj.version
        {
          SelectedFrom(front, w, s[i]);
        }
      }
    }
  }

  lemma {:induction false} SelectedNulls(objs: seq<Slot>, w: Watcher, n: nat)
    requires n <= |objs| && forall i :: n <= i < |objs| ==> objs[i] == null
    ensures Selected(objs, w) == Selected(objs[..n], w)
  {
    if n == |objs| {
      assert objs[..n] == objs;
    } else {
      SelectedNulls(objs[..|objs| - 1], w, n);
      assert objs[..|objs| - 1][..n] == objs[..n];
    }
  }

  /** The list and the event stream agree on what a watcher covers. */
  lemma ListMeetsView(cur: Current, objs: seq<Slot>, last: nat, rev: nat, log: seq<ObjEvent>, w: Watcher)
    requires ListAgrees(cur, objs, last, rev) && LogAgrees(cur, log, rev) && w.recursive
    ensures var s := Selected(objs[..last + 1], w);
            && (forall i, j :: 0 <= i < j < |s| ==> s[i].version < s[j].version)
            && (forall k :: k in View(w, Stored(log)) ==> View(w, Stored(log))[k] in s)
            && (forall o :: o in s ==> o.key in View(w, Stored(log)) && View(w, Stored(log))[o.key] == o)
  {
    SelectedRises(objs[..last + 1], w);
    SelectedNulls(objs, w, last + 1);
    forall k | k in View(w, Stored(log))
      ensures View(w, Stored(log))[k] in Selected(objs, w)
    {
      var v := cur[At(k)];
      StoredKeyed(log);
      SelectedFrom(objs, w, v.obj);
    }
    forall o | o in Selected(objs, w)
      ensures o.key in View(w, Stored(log)) && View(w, Stored(log))[o.key] == o
    {
      SelectedFrom(objs, w, o);
    }
  }

  /** The places of the live slots. */
  ghost function LivePlaces(objs: seq<Slot>): set<Path> {
    if objs == [] then {} else (if Dead(objs[0]) then {} else {At(objs[0].obj.key)}) + LivePlaces(objs[1..])
  }

  lemma {:induction false} InLivePlaces(objs: seq<Slot>, p: Path)
    ensures p in LivePlaces(objs) <==> exists i :: 0 <= i < |objs| && !Dead(objs[i]) && At(objs[i].obj.key) == p
  {
    hide At;
    if objs != [] {
      InLivePlaces(objs[1..], p);
      if i :| 0 <= i < |objs| && !Dead(objs[i]) && At(objs[i].obj.key) == p {
        assert i > 0 ==> objs[i] == objs[1..][i - 1];
      }
    }
  }

  lemma {:induction false} LivePlacesCount(objs: seq<Slot>)
    requires forall i, j :: 0 <= i < j < |objs| && !Dead(objs[i]) && !Dead(objs[j]) ==>
               At(objs[i].obj.key) != At(objs[j].obj.key)
    ensures |LivePlaces(objs)| == |Live(objs)|
  {
    hide At;
    if objs != [] {
      LivePlacesCount(objs[1..]);
      if !Dead(objs[0]) {
        InLivePlaces(objs[1..], At(objs[0].obj.key));
      }
    }
  }

  /** As many live slots as current objects: all other slots are dead. */
  lemma AllButCurrent(cur: Current, objs: seq<Slot>, last: nat, rev: nat)
    requires ListAgrees(cur, objs, last, rev)
    ensures DeadCount(objs) == |objs| - |cur|
  {
    hide At;
    LiveOrDead(objs);
    LivePlacesCount(objs);
    forall p | p in cur
      ensures p in LivePlaces(objs)
    {
      var i :| 0 <= i < |objs| && objs[i] == cur[p];
      InLivePlaces(objs, p);
    }
    forall p | p in LivePlaces(objs)
      ensures p in cur
    {
      InLivePlaces(objs, p);
    }
    assert LivePlaces(objs) == cur.Keys;
  }

  lemma {:induction false} LiveOrDead(objs: seq<Slot>)
    ensures |Live(objs)| + DeadCount(objs) == |objs|
  {
    if objs != [] { LiveOrDead(objs[1..]); }
  }

  /** A walk that meets an object meets the key's own, or one that blocks the way to it. */
  lemma SomethingFound(f: Flat, key: string, o: ObjWithIndex)
    requires WellFormed(f)
    requires exists j :: 0 < j <= |Split(key)| && Upto(Split(key), j) in f.objs && f.objs[Upto(Split(key), j)] == o
    ensures Found(f, key)
    ensures At(key) in f.objs ==> f.objs[At(key)] == o
    ensures At(key) in f.objs ==> DelOutcome(f, Split(key)) == Ok && PutOutcome(f, Split(key), o.obj.version) == Ok
    ensures At(key) !in f.objs ==> DelOutcome(f, Split(key)) == Err(MiddleIsObject)
    ensures At(key) !in f.objs ==> forall v :: PutOutcome(f, Split(key), v) == Err(MiddleIsObject)
  {
    var keys := Split(key);
    UptoEnd(keys);
    if At(key) in f.objs {
      UptoSteps(keys, |keys| - 1);
      assert At(key).parent in f.dirs;
      NoObjectAbove(f, keys, |keys| - 1);
    }
  }

  lemma StoredAt(cur: Current, log: seq<ObjEvent>, rev: nat, key: string)
    requires LogAgrees(cur, log, rev) && At(key) in cur
    ensures key in Stored(log) && Stored(log)[key] == cur[At(key)].obj
  {
  }

  /** A current object sits in the slot it is numbered with. */
  lemma SlotOf(cur: Current, objs: seq<Slot>, last: nat, rev: nat, p: Path)
    requires ListAgrees(cur, objs, last, rev) && Indexed(objs) && p in cur
    ensures cur[p].index < |objs| && objs[cur[p].index] == cur[p]
  {
    var i :| 0 <= i < |objs| && objs[i] == cur[p];
  }

  /** When a walk finds nothing, the only obstacle to a put is a map at the key itself. */
  lemma NothingFound(f: Flat, key: string)
    requires forall j :: 0 < j <= |Split(key)| ==> Upto(Split(key), j) !in f.objs
    ensures !Found(f, key) && At(key) !in f.objs
    ensures forall v :: PutOutcome(f, Split(key), v) == if At(key) in f.dirs then Err(LeafIsMap) else Ok
  {
    UptoEnd(Split(key));
  }

  lemma PlaceBounds(cur: Current, objs: seq<Slot>, last: nat, rev: nat, o: ObjWithIndex, old_: Option<nat>)
    requires CanPlace(cur, objs, last, rev, o, old_)
    ensures last < |objs| && (old_.Some? ==> old_.value < |objs|) && o.obj.version == rev + 1
  {
  }

  lemma InUse(cur: Current, objs: seq<Slot>, last: nat, rev: nat)
    requires ListAgrees(cur, objs, last, rev)
    ensures last < |objs|
  {
  }
}
