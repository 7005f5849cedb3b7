/**
  List calls in pages: a limit, a token that continues where a page ended, and a revision to start from.
 */
module Paging {
  import opened Common
  import opened StoreMap
  import opened ObjList
  import opened Watch
  import opened MemoryStore
  import opened Resume

  predicate Listed(v: Slot, w: Watcher, lo: nat) {
    v != null && !v.deleted && w.keyPrefix <= v.obj.key && v.obj.version >= lo && w.Filter(v.obj)
  }

  /** The slots from `a` up to `b` whose objects are listed. */
  function Picked(objs: seq<Slot>, w: Watcher, lo: nat, a: nat, b: nat): seq<nat>
    requires b <= |objs|
    decreases b
  {
    if b <= a then [] else Picked(objs, w, lo, a, b - 1) + if Listed(objs[b - 1], w, lo) then [b - 1] else []
  }

  predicate Increasing(xs: seq<nat>) { forall k, l :: 0 <= k < l < |xs| ==> xs[k] < xs[l] }

  /** They are exactly the listed ones, each once and in the order of the list. */
  lemma {:induction false} PickedAreListed(objs: seq<Slot>, w: Watcher, lo: nat, a: nat, b: nat)
    requires b <= |objs|
    ensures forall i :: i in Picked(objs, w, lo, a, b) <==> a <= i < b && Listed(objs[i], w, lo)
    ensures Increasing(Picked(objs, w, lo, a, b))
    decreases b
  {
    if a < b {
      PickedAreListed(objs, w, lo, a, b - 1);
      var front := Picked(objs, w, lo, a, b - 1);
      assert forall k :: 0 <= k < |front| ==> front[k] in front;
    }
  }

  function Take(xs: seq<nat>, limit: nat): seq<nat> { if |xs| <= limit then xs else xs[..limit] }

  predicate Filled(objs: seq<Slot>, at: seq<nat>) {
    forall k :: 0 <= k < |at| ==> at[k] < |objs| && objs[at[k]] != null
  }

  function ObjectsAt(objs: seq<Slot>, at: seq<nat>): (r: seq<ApiObject>)
    requires Filled(objs, at)
    ensures |r| == |at|
  {
    seq(|at|, k requires 0 <= k < |at| => objs[at[k]].obj)
  }

  /** A page that was filled at slot `i` says that there is more; the subtraction is on 64 bits without sign. */
  predicate SaysMore(i: nat, last: nat) { i < (last - 1) % MODULUS }

  /** The page that starts at slot `a`. */
  function Page(objs: seq<Slot>, last: nat, w: Watcher, lo: nat, a: nat, limit: nat): seq<nat>
    requires last < |objs|
  {
    Take(Picked(objs, w, lo, a, last + 1), limit)
  }

  /** All pages from there on, in a store that does not change. */
  function Pages(objs: seq<Slot>, last: nat, w: Watcher, lo: nat, a: nat, limit: nat): seq<nat>
    requires last < |objs| < MODULUS && limit > 0 && Rising(objs)
    decreases |Picked(objs, w, lo, a, last + 1)|
  {
    var p := Page(objs, last, w, lo, a, limit);
    if |p| == limit && SaysMore(p[limit - 1], last) then
      NextPage(objs, w, lo, a, last + 1, limit);
      var i := p[limit - 1];
      p + Pages(objs, last, w, objs[i].obj.version + 1, i, limit)
    else p
  }

  /** Slots up to the one with the given version hold smaller ones. */
  lemma {:induction false} PickedAfter(objs: seq<Slot>, w: Watcher, lo: nat, i: nat, b: nat)
    requires Rising(objs) && i < b <= |objs| && Listed(objs[i], w, lo)
    ensures Picked(objs, w, objs[i].obj.version + 1, i, b) == Picked(objs, w, lo, i + 1, b)
    decreases b
  {
    if i + 1 < b {
      PickedAfter(objs, w, lo, i, b - 1);
    } else {
      assert Picked(objs, w, objs[i].obj.version + 1, i, i) == [];
    }
  }

  lemma {:induction false} PickedSplit(objs: seq<Slot>, w: Watcher, lo: nat, a: nat, m: nat, b: nat)
    requires a <= m <= b <= |objs|
    ensures Picked(objs, w, lo, a, b) == Picked(objs, w, lo, a, m) + Picked(objs, w, lo, m, b)
    decreases b
  {
    if m < b {
      PickedSplit(objs, w, lo, a, m, b - 1);
    } else {
      assert Picked(objs, w, lo, m, b) == [];
    }
  }

  /** What comes after a full page is what was picked beyond it. */
  lemma NextPage(objs: seq<Slot>, w: Watcher, lo: nat, a: nat, b: nat, limit: nat)
    requires Rising(objs) && b <= |objs| && 0 < limit <= |Picked(objs, w, lo, a, b)|
    ensures var p := Picked(objs, w, lo, a, b); var i := p[limit - 1];
            && i < b && objs[i] != null && Listed(objs[i], w, lo)
            && Picked(objs, w, objs[i].obj.version + 1, i, b) == p[limit..]
  {
    hide Picked, Rising;
    var p := Picked(objs, w, lo, a, b);
    var i := p[limit - 1];
    PickedAreListed(objs, w, lo, a, b);
    assert i in p;
    PickedSplit(objs, w, lo, a, i + 1, b);
    PickedAfter(objs, w, lo, i, b);
    var front := Picked(objs, w, lo, a, i + 1);
    PickedAreListed(objs, w, lo, a, i + 1);
    PickedAreListed(objs, w, lo, i + 1, b);
    assert p[|front|..] == Picked(objs, w, lo, i + 1, b);
    UpTo(front, p, i, limit);
  }

  /** Numbers that increase lie at least one apart. */
  lemma {:induction false} Spread(xs: seq<nat>, k: nat, l: nat)
    requires Increasing(xs)
    ensures k <= l < |xs| ==> xs[l] - xs[k] >= l - k
    decreases l
  {
    if k < l < |xs| {
      Spread(xs, k, l - 1);
    }
  }

  lemma UpTo(front: seq<nat>, p: seq<nat>, i: nat, limit: nat)
    requires front <= p && 0 < limit <= |p| && p[limit - 1] == i && Increasing(p)
    requires forall x :: x in front ==> x <= i
    requires forall x :: x in p[|front|..] ==> x > i
    ensures front == p[..limit]
  {
    forall k | 0 <= k < |p|
      ensures p[k] <= i <==> k < |front|
    {
      assert if k < |front| then front[k] in front else p[|front|..][k - |front|] in p[|front|..];
    }
    assert p[limit - 1] <= i;
    Spread(p, limit - 1, |front| - 1);
  }

  /** So many objects fill pages with nothing over. */
  predicate WholePages(n: nat, limit: nat)
    requires limit > 0
  {
    n == 0 || (n >= limit && WholePages(n - limit, limit))
  }

  /** The last page ended one slot before the last one in use, and that one is listed. */
  predicate LosesLast(p: seq<nat>, last: nat, limit: nat)
    requires limit > 0
  {
    |p| >= 2 && p[|p| - 1] == last && p[|p| - 2] == last - 1 && WholePages(|p| - 1, limit)
  }

  /** What the pages keep of the slots picked. */
  function Kept(p: seq<nat>, last: nat, limit: nat): seq<nat>
    requires limit > 0
  {
    if LosesLast(p, last, limit) then p[..|p| - 1] else p
  }

  /**
    The pages together list everything once and in order, except that the last object is lost exactly if
    the last two slots in use are both listed and the number of listed objects before it fills whole pages.
   */
  lemma {:induction false} PagesExactlyWhen(objs: seq<Slot>, last: nat, w: Watcher, lo: nat, a: nat, limit: nat)
    requires last < |objs| < MODULUS && limit > 0 && Rising(objs)
    ensures Pages(objs, last, w, lo, a, limit) == Kept(Picked(objs, w, lo, a, last + 1), last, limit)
    decreases |Picked(objs, w, lo, a, last + 1)|
  {
    hide Picked, SaysMore, Kept, Listed, Pages;
    PagesStep(objs, last, w, lo, a, limit);
    var p := Picked(objs, w, lo, a, last + 1);
    PickedAreListed(objs, w, lo, a, last + 1);
    assert forall k :: 0 <= k < |p| ==> p[k] in p;
    if |p| >= limit {
      var i := p[limit - 1];
      assert Page(objs, last, w, lo, a, limit) == p[..limit];
      if SaysMore(i, last) {
        NextPage(objs, w, lo, a, last + 1, limit);
        PagesExactlyWhen(objs, last, w, objs[i].obj.version + 1, i, limit);
        MoreIsLost(p, last, limit);
      } else {
        OneIsLost(p, last, limit);
      }
    } else {
      FewAreKept(p, last, limit);
    }
  }

  /** A page that says there is more: what is lost is lost later. */
  lemma MoreIsLost(p: seq<nat>, last: nat, limit: nat)
    requires 0 < limit <= |p| && last < MODULUS && SaysMore(p[limit - 1], last)
    requires (forall k :: 0 <= k < |p| ==> p[k] <= last) && Increasing(p)
    ensures Kept(p, last, limit) == p[..limit] + Kept(p[limit..], last, limit)
  {
    hide SaysMore, WholePages;
    SaysMoreWhen(p[limit - 1], last);
    WholePagesStep(|p|, limit);
    var rest := p[limit..];
    assert |p| >= 2 ==> p[|p| - 2] < p[|p| - 1];
    assert |rest| >= 2 ==> rest[|rest| - 1] == p[|p| - 1] && rest[|rest| - 2] == p[|p| - 2];
    assert LosesLast(p, last, limit) <==> LosesLast(rest, last, limit);
  }

  /** A full page that says there is no more loses at most one object. */
  lemma OneIsLost(p: seq<nat>, last: nat, limit: nat)
    requires 0 < limit <= |p| && last < MODULUS && !SaysMore(p[limit - 1], last)
    requires (forall k :: 0 <= k < |p| ==> p[k] <= last) && Increasing(p)
    ensures Kept(p, last, limit) == p[..limit]
  {
    hide SaysMore, WholePages;
    SaysMoreWhen(p[limit - 1], last);
    Spread(p, limit - 1, |p| - 1);
    WholePagesStep(|p|, limit);
  }

  lemma SaysMoreWhen(i: nat, last: nat)
    requires i <= last < MODULUS
    ensures SaysMore(i, last) <==> last == 0 || i < last - 1
  {
  }

  lemma WholePagesStep(n: nat, limit: nat)
    requires limit > 0
    ensures n > limit ==> (WholePages(n - 1, limit) <==> WholePages(n - 1 - limit, limit))
    ensures n == limit + 1 ==> WholePages(n - 1, limit)
    ensures 2 <= n <= limit ==> !WholePages(n - 1, limit)
  {
    if n > limit {
      assert n == limit + 1 ==> WholePages(n - 1 - limit, limit);
    }
  }

  lemma FewAreKept(p: seq<nat>, last: nat, limit: nat)
    requires |p| < limit
    ensures Kept(p, last, limit) == p
  {
    assert |p| >= 2 ==> !WholePages(|p| - 1, limit);
  }

  // ---------- The call ----------

  datatype Token = Token(key: string, version: nat)

  const NO_LIMIT: nat := 0x7FFF_FFFF_FFFF_FFFF

  function Cap(limit: nat): nat { if limit > 0 then limit else NO_LIMIT }

  /** Where a call starts to read, and the revision it reads from. */
  method StartingIndex(store: Store, token: Option<Token>, fromRev: nat) returns (start: nat, withRev: nat)
    requires store.Valid()
    ensures withRev == if token.Some? then token.value.version else fromRev
    ensures token.None? && fromRev == 0 ==> start == 0
    ensures token.None? && fromRev > 0 ==> start == Search(store.list.objs, fromRev, 0, |store.list.objs|)
    ensures token.Some? && !Found(store.kvs.view, token.value.key) ==> start == 0
    ensures token.Some? && Found(store.kvs.view, token.value.key) ==>
              || start == Search(store.list.objs, withRev, 0, |store.list.objs|)
              || (start < |store.list.objs| && store.list.objs[start] != null
                  && store.list.objs[start].obj.version == withRev)
    ensures token.Some? && At(token.value.key) in store.kvs.view.objs ==>
              var v := store.kvs.view.objs[At(token.value.key)];
              start == if v.obj.version == withRev then v.index
                       else Search(store.list.objs, withRev, 0, |store.list.objs|)
  {
    hide Store.Valid;
    start, withRev := 0, 0;
    match token {
      case Some(t) =>
        withRev := t.version;
        var found := store.LookUp(t.key);
        if found != null {
          if found.obj.version == withRev {
            start := found.index;
          } else {
            start := BinarySearchInObjList(store.list, withRev);
          }
        }
      case None =>
        if fromRev > 0 {
          withRev := fromRev;
          start := BinarySearchInObjList(store.list, fromRev);
        }
    }
  }

  /** One page: at most `limit` listed objects, and a token when the page was filled before the end. */
  method GetPage(store: Store, w: Watcher, start: nat, withRev: nat, inclusive: bool, limit: nat)
    returns (items: seq<ApiObject>, next: Option<Token>)
    requires store.Valid()
    ensures store.list.lastObjIndex < |store.list.objs|
    ensures var objs, last := store.list.objs, store.list.lastObjIndex;
            var p := Page(objs, last, w, if inclusive then withRev else withRev + 1, start, Cap(limit));
            && Filled(objs, p) && items == ObjectsAt(objs, p)
            && next == if |p| == Cap(limit) && SaysMore(p[|p| - 1], last)
                       then Some(Token(items[|p| - 1].key, items[|p| - 1].version)) else None
  {
    hide Store.Valid, Picked, Listed;
    var objs, last := store.list.objs, store.list.lastObjIndex;
    assert last < |objs| by { InUseStore(store); }
    var lo := if inclusive then withRev else withRev + 1;
    items, next := [], None;
    var i := start;
    ghost var at: seq<nat> := [];
    PickedNone(objs, w, lo, start, last + 1);
    while i <= last
      invariant start <= i && (i <= last + 1 || i == start)
      invariant i <= last + 1 ==> at == Picked(objs, w, lo, start, i)
      invariant i > last ==> at == Picked(objs, w, lo, start, last + 1)
      invariant Filled(objs, at) && items == ObjectsAt(objs, at) && |at| < Cap(limit)
    {
      var v := objs[i];
      PickedStep(objs, w, lo, start, i);
      if Listed(v, w, lo) {
        items := items + [v.obj];
        at := at + [i];
        if |items| == Cap(limit) {
          PickedSplit(objs, w, lo, start, i + 1, last + 1);
          assert Page(objs, last, w, lo, start, Cap(limit)) == at;
          if i < (last - 1) % MODULUS {
            next := Some(Token(v.obj.key, v.obj.version));
          }
          return;
        }
      }
      i := i + 1;
    }
  }

  lemma PickedNone(objs: seq<Slot>, w: Watcher, lo: nat, a: nat, b: nat)
    requires b <= |objs|
    ensures b <= a ==> Picked(objs, w, lo, a, b) == []
    ensures a <= |objs| ==> Picked(objs, w, lo, a, a) == []
  {
  }

  lemma PickedStep(objs: seq<Slot>, w: Watcher, lo: nat, a: nat, i: nat)
    requires a <= i < |objs|
    ensures Picked(objs, w, lo, a, i + 1) == Picked(objs, w, lo, a, i) + if Listed(objs[i], w, lo) then [i] else []
    ensures Listed(objs[i], w, lo) ==> objs[i] != null
  {
  }

  lemma InUseStore(store: Store)
    requires store.Valid()
    ensures store.list.lastObjIndex < |store.list.objs|
  {
  }

  /** The objects of a list call without limit, by slot. */
  lemma {:induction false} PickedIsSelected(objs: seq<Slot>, w: Watcher, b: nat)
    requires b <= |objs| && forall i :: 0 <= i < |objs| && objs[i] != null ==> objs[i].obj.version > 0
    ensures Filled(objs, Picked(objs, w, 1, 0, b))
    ensures ObjectsAt(objs, Picked(objs, w, 1, 0, b)) == Selected(objs[..b], w)
  {
    if b > 0 {
      PickedIsSelected(objs, w, b - 1);
      SelectedSnoc(objs[..b - 1], objs[b - 1], w);
      assert objs[..b] == objs[..b - 1] + [objs[b - 1]];
    } else {
      assert objs[..b] == [];
    }
  }

  ghost predicate LosesOne(objs: seq<Slot>, last: nat, w: Watcher, limit: nat)
    requires last < |objs| && limit > 0
  {
    LosesLast(Picked(objs, w, 1, 0, last + 1), last, limit)
  }

  lemma {:induction false} PagesOfOneAreWhole(n: nat)
    ensures WholePages(n, 1)
  {
    if n > 0 {
      PagesOfOneAreWhole(n - 1);
    }
  }

  /** With pages of one object, two listed objects in the last two slots in use are enough to lose one. */
  lemma PagesOfOneLose(objs: seq<Slot>, last: nat, w: Watcher)
    requires last < |objs|
    ensures LosesOne(objs, last, w, 1) <==> last > 0 && Listed(objs[last - 1], w, 1) && Listed(objs[last], w, 1)
  {
    hide Listed;
    var p := Picked(objs, w, 1, 0, last + 1);
    PickedAreListed(objs, w, 1, 0, last + 1);
    assert forall k :: 0 <= k < |p| ==> p[k] in p;
    if last > 0 {
      PickedStep(objs, w, 1, 0, last);
      PickedStep(objs, w, 1, 0, last - 1);
    }
    PagesOfOneAreWhole(if |p| > 0 then |p| - 1 else 0);
  }

  /** All pages give the watched objects in order, without the last of them exactly in the one case. */
  lemma PagesMeetView(cur: Current, objs: seq<Slot>, last: nat, rev: nat, log: seq<ObjEvent>, w: Watcher, limit: nat)
    requires ListAgrees(cur, objs, last, rev) && LogAgrees(cur, log, rev) && w.recursive
    requires last < |objs| < MODULUS && limit > 0
    ensures Filled(objs, Pages(objs, last, w, 1, 0, limit))
    ensures var s := ObjectsAt(objs, Pages(objs, last, w, 1, 0, limit));
            && (forall i, j :: 0 <= i < j < |s| ==> s[i].version < s[j].version)
            && (forall o :: o in s ==> o.key in View(w, Stored(log)) && View(w, Stored(log))[o.key] == o)
            && ((forall k :: k in View(w, Stored(log)) ==> View(w, Stored(log))[k] in s) <==>
                !LosesOne(objs, last, w, limit))
            && (LosesOne(objs, last, w, limit) ==> AllButNewest(s, View(w, Stored(log))))
  {
    hide LogAgrees, Lists, TombsOlder, Listed, Picked, Pages, View, Stored, Kept, LosesLast, Rising, At;
    var p := Picked(objs, w, 1, 0, last + 1);
    PickedIsSelected(objs, w, last + 1);
    PagesExactlyWhen(objs, last, w, 1, 0, limit);
    ListMeetsView(cur, objs, last, rev, log, w);
    KeptObjects(objs, p, last, limit);
    AllButLast(ObjectsAt(objs, p), View(w, Stored(log)), LosesLast(p, last, limit));
  }

  lemma KeptObjects(objs: seq<Slot>, p: seq<nat>, last: nat, limit: nat)
    requires Filled(objs, p) && limit > 0
    ensures Filled(objs, Kept(p, last, limit)) && (LosesLast(p, last, limit) ==> p != [])
    ensures ObjectsAt(objs, Kept(p, last, limit)) == WithoutLast(ObjectsAt(objs, p), LosesLast(p, last, limit))
  {
  }

  function WithoutLast(all: seq<ApiObject>, loses: bool): seq<ApiObject> {
    if loses && all != [] then all[..|all| - 1] else all
  }

  lemma NoneNewer(all: seq<ApiObject>, view: map<string, ApiObject>)
    requires all != [] && forall i, j :: 0 <= i < j < |all| ==> all[i].version < all[j].version
    requires forall k :: k in view ==> view[k] in all
    ensures forall k :: k in view ==> view[k].version <= all[|all| - 1].version
  {
  }

  /** What is missing is the newest object, and nothing else. */
  ghost predicate AllButNewest(s: seq<ApiObject>, view: map<string, ApiObject>) {
    forall k :: k in view ==> (view[k] in s <==> exists j :: j in view && view[k].version < view[j].version)
  }

  lemma AllButLast(all: seq<ApiObject>, view: map<string, ApiObject>, loses: bool)
    requires (loses ==> all != []) && forall i, j :: 0 <= i < j < |all| ==> all[i].version < all[j].version
    requires forall k :: k in view ==> view[k] in all
    requires forall o :: o in all ==> o.key in view && view[o.key] == o
    ensures var s := WithoutLast(all, loses);
            && (forall i, j :: 0 <= i < j < |s| ==> s[i].version < s[j].version)
            && (forall o :: o in s ==> o.key in view && view[o.key] == o)
            && ((forall k :: k in view ==> view[k] in s) <==> !loses)
            && (loses ==> AllButNewest(s, view))
  {
    if loses {
      var o, s := all[|all| - 1], WithoutLast(all, loses);
      assert o in all && o !in s;
      assert view[o.key] == o;
      forall k | k in view
        ensures view[k] in s <==> exists j :: j in view && view[k].version < view[j].version
      {
        var i :| 0 <= i < |all| && all[i] == view[k];
        if i < |all| - 1 {
          assert s[i] == view[k] && o.key in view && view[k].version < view[o.key].version;
        } else {
          NoneNewer(all, view);
        }
      }
    }
  }

  /** The object a page ended with is still there when the next page is asked for. */
  lemma TokenHolds(store: Store, w: Watcher, lo: nat, i: nat)
    requires store.Valid() && i < |store.list.objs| && Listed(store.list.objs[i], w, lo)
    ensures var v := store.list.objs[i];
            At(v.obj.key) in store.kvs.view.objs && store.kvs.view.objs[At(v.obj.key)] == v && v.index == i
  {
  }

  predicate AtToken(v: Slot, w: Watcher, t: Token) {
    Listed(v, w, 0) && v.obj.key == t.key && v.obj.version == t.version
  }

  /** Reading one page more. */
  lemma PagesStep(objs: seq<Slot>, last: nat, w: Watcher, lo: nat, a: nat, limit: nat)
    requires last < |objs| < MODULUS && limit > 0 && Rising(objs)
    ensures var p := Page(objs, last, w, lo, a, limit);
            if |p| == limit && SaysMore(p[limit - 1], last)
            then
              var i := p[limit - 1];
              && i < |objs| && Listed(objs[i], w, 0)
              && Pages(objs, last, w, lo, a, limit) == p + Pages(objs, last, w, objs[i].obj.version + 1, i, limit)
              && |Picked(objs, w, objs[i].obj.version + 1, i, last + 1)| < |Picked(objs, w, lo, a, last + 1)|
            else Pages(objs, last, w, lo, a, limit) == p
  {
    hide Picked;
    if |Picked(objs, w, lo, a, last + 1)| >= limit {
      NextPage(objs, w, lo, a, last + 1, limit);
    }
  }

  /** With the match that includes the given revision, a page starts with the object of the token again. */
  lemma {:induction false} PickedAgain(objs: seq<Slot>, w: Watcher, lo: nat, i: nat, b: nat)
    requires Rising(objs) && i < b <= |objs| && Listed(objs[i], w, lo)
    ensures Picked(objs, w, objs[i].obj.version, i, b) == [i] + Picked(objs, w, lo, i + 1, b)
    decreases b
  {
    if i + 1 < b {
      PickedAgain(objs, w, lo, i, b - 1);
    } else {
      assert Picked(objs, w, objs[i].obj.version, i, i) == [];
    }
  }

  /** Such a page ends with the slot it starts with exactly if it has one object. */
  lemma SamePage(objs: seq<Slot>, last: nat, w: Watcher, i: nat, limit: nat)
    requires i <= last < |objs| && limit > 0 && Rising(objs) && Listed(objs[i], w, 0)
    ensures var p := Page(objs, last, w, objs[i].obj.version, i, limit);
            && 0 < |p| <= limit && p[0] == i && Filled(objs, p)
            && (objs[p[|p| - 1]].obj.version == objs[i].obj.version <==> |p| == 1)
            && (limit == 1 ==> |p| == 1)
  {
    PickedAgain(objs, w, 0, i, last + 1);
    PickedAreListed(objs, w, objs[i].obj.version, i, last + 1);
    var q := Picked(objs, w, objs[i].obj.version, i, last + 1);
    assert forall k :: 0 <= k < |q| ==> q[k] in q;
  }

  /**
    The page after a token with that match: the token's own object comes again, and the call gives the same token
    back, so that the client never gets any further, exactly if pages have one object and there is more to come.
   */
  method PageAgain(store: Store, w: Watcher, token: Token, limit: nat, ghost a: nat)
    returns (page: seq<ApiObject>, next: Option<Token>)
    requires store.Valid() && limit > 0 && a <= store.list.lastObjIndex && AtToken(store.list.objs[a], w, token)
    ensures page != [] && Token(page[0].key, page[0].version) == token
    ensures next == Some(token) <==> limit == 1 && SaysMore(a, store.list.lastObjIndex)
  {
    hide Store.Valid, Listed, Page, SaysMore, At;
    AgreesStore(store);
    TokenHolds(store, w, 0, a);
    SamePage(store.list.objs, store.list.lastObjIndex, w, a, limit);
    var start, withRev := StartingIndex(store, Some(token), 0);
    page, next := GetPage(store, w, start, withRev, true, limit);
  }

  /** What a page after a full one picks from with that match: its last object again, and what was picked beyond it. */
  lemma NextPageAgain(objs: seq<Slot>, w: Watcher, lo: nat, a: nat, b: nat, limit: nat)
    requires Rising(objs) && b <= |objs| && 0 < limit <= |Picked(objs, w, lo, a, b)|
    ensures var p := Picked(objs, w, lo, a, b); var i := p[limit - 1];
            && i < b && objs[i] != null && Listed(objs[i], w, lo)
            && Picked(objs, w, objs[i].obj.version, i, b) == p[limit - 1..]
  {
    var p := Picked(objs, w, lo, a, b);
    NextPage(objs, w, lo, a, b, limit);
    PickedAfter(objs, w, lo, p[limit - 1], b);
    PickedAgain(objs, w, lo, p[limit - 1], b);
    assert p[limit - 1..] == [p[limit - 1]] + p[limit..];
  }

  /** All pages with that match, each without the object that it repeats. */
  function PagesAgain(objs: seq<Slot>, last: nat, w: Watcher, lo: nat, a: nat, limit: nat): (r: seq<nat>)
    requires last < |objs| < MODULUS && limit > 1 && Rising(objs)
    ensures Picked(objs, w, lo, a, last + 1) != [] ==> r != []
    decreases |Picked(objs, w, lo, a, last + 1)|
  {
    var p := Page(objs, last, w, lo, a, limit);
    if |p| == limit && SaysMore(p[limit - 1], last) then
      NextPageAgain(objs, w, lo, a, last + 1, limit);
      var i := p[limit - 1];
      p + PagesAgain(objs, last, w, objs[i].obj.version, i, limit)[1..]
    else p
  }

  /** Every page but the first brings one object less. */
  predicate LosesLastAgain(p: seq<nat>, last: nat, limit: nat)
    requires limit > 1
  {
    |p| >= 3 && p[|p| - 1] == last && p[|p| - 2] == last - 1 && WholePages(|p| - 2, limit - 1)
  }

  function KeptAgain(p: seq<nat>, last: nat, limit: nat): seq<nat>
    requires limit > 1
  {
    if LosesLastAgain(p, last, limit) then p[..|p| - 1] else p
  }

  /** The same loss with that match, at other numbers of objects. */
  lemma {:induction false} PagesAgainExactlyWhen(objs: seq<Slot>, last: nat, w: Watcher, lo: nat, a: nat, limit: nat)
    requires last < |objs| < MODULUS && limit > 1 && Rising(objs)
    ensures PagesAgain(objs, last, w, lo, a, limit) == KeptAgain(Picked(objs, w, lo, a, last + 1), last, limit)
    decreases |Picked(objs, w, lo, a, last + 1)|
  {
    hide Picked, SaysMore, KeptAgain, Listed;
    var p := Picked(objs, w, lo, a, last + 1);
    PickedAreListed(objs, w, lo, a, last + 1);
    assert forall k :: 0 <= k < |p| ==> p[k] in p;
    if |p| < limit {
      FewAreKeptAgain(p, last, limit);
    } else {
      var i := p[limit - 1];
      assert Page(objs, last, w, lo, a, limit) == p[..limit];
      if SaysMore(i, last) {
        NextPageAgain(objs, w, lo, a, last + 1, limit);
        PagesAgainExactlyWhen(objs, last, w, objs[i].obj.version, i, limit);
        MoreIsLostAgain(p, last, limit);
      } else {
        OneIsLostAgain(p, last, limit);
      }
    }
  }

  lemma MoreIsLostAgain(p: seq<nat>, last: nat, limit: nat)
    requires 1 < limit <= |p| && last < MODULUS && SaysMore(p[limit - 1], last)
    requires (forall k :: 0 <= k < |p| ==> p[k] <= last) && Increasing(p)
    ensures var rest := KeptAgain(p[limit - 1..], last, limit);
            rest != [] && KeptAgain(p, last, limit) == p[..limit] + rest[1..]
  {
    hide SaysMore, WholePages;
    SaysMoreWhen(p[limit - 1], last);
    WholePagesStep(|p| - 1, limit - 1);
    var rest := p[limit - 1..];
    assert |p| >= 2 ==> p[|p| - 2] < p[|p| - 1];
    assert |rest| >= 2 ==> rest[|rest| - 1] == p[|p| - 1] && rest[|rest| - 2] == p[|p| - 2];
    assert LosesLastAgain(p, last, limit) <==> LosesLastAgain(rest, last, limit);
    assert p == p[..limit] + rest[1..];
  }

  lemma OneIsLostAgain(p: seq<nat>, last: nat, limit: nat)
    requires 1 < limit <= |p| && last < MODULUS && !SaysMore(p[limit - 1], last)
    requires (forall k :: 0 <= k < |p| ==> p[k] <= last) && Increasing(p)
    ensures KeptAgain(p, last, limit) == p[..limit]
  {
    hide SaysMore, WholePages;
    SaysMoreWhen(p[limit - 1], last);
    Spread(p, limit - 1, |p| - 1);
    WholePagesStep(|p| - 1, limit - 1);
  }

  lemma FewAreKeptAgain(p: seq<nat>, last: nat, limit: nat)
    requires |p| < limit && limit > 1
    ensures KeptAgain(p, last, limit) == p
  {
    WholePagesStep(if |p| > 0 then |p| - 1 else 0, limit - 1);
  }

  /** Before a page is asked for: what was read, and what the token stands for. */
  ghost predicate Reading(objs: seq<Slot>, last: nat, w: Watcher, limit: nat, items: seq<ApiObject>,
      token: Option<Token>, more: bool, lo: nat, a: nat, at: seq<nat>)
    requires last < |objs| < MODULUS && limit > 0 && Rising(objs)
  {
    && Filled(objs, at) && items == ObjectsAt(objs, at)
    && Pages(objs, last, w, 1, 0, limit) == (if more then at + Pages(objs, last, w, lo, a, limit) else at)
    && (more ==> Points(objs, w, token, lo, a))
  }

  ghost predicate Points(objs: seq<Slot>, w: Watcher, token: Option<Token>, lo: nat, a: nat) {
    match token
    case None => lo == 1 && a == 0
    case Some(t) => a < |objs| && AtToken(objs[a], w, t) && lo == t.version + 1
  }

  ghost predicate IsPage(objs: seq<Slot>, last: nat, p: seq<nat>, limit: nat, page: seq<ApiObject>, next: Option<Token>)
    requires limit > 0
  {
    && Filled(objs, p) && page == ObjectsAt(objs, p)
    && next == if |p| == limit && SaysMore(p[limit - 1], last)
               then Some(Token(page[limit - 1].key, page[limit - 1].version)) else None
  }

  lemma ReadOn(objs: seq<Slot>, last: nat, w: Watcher, limit: nat, items: seq<ApiObject>, token: Option<Token>,
      lo: nat, a: nat, at: seq<nat>, page: seq<ApiObject>, next: Option<Token>)
    returns (lo': nat, a': nat, at': seq<nat>)
    requires last < |objs| < MODULUS && limit > 0 && Rising(objs)
    requires Reading(objs, last, w, limit, items, token, true, lo, a, at)
    requires IsPage(objs, last, Page(objs, last, w, lo, a, limit), limit, page, next)
    ensures Reading(objs, last, w, limit, items + page, next, next.Some?, lo', a', at')
    ensures next.Some? ==> |Picked(objs, w, lo', a', last + 1)| < |Picked(objs, w, lo, a, last + 1)|
  {
    hide Listed, Picked, Pages, Page, SaysMore, Rising;
    PagesStep(objs, last, w, lo, a, limit);
    var p := Page(objs, last, w, lo, a, limit);
    at' := at + p;
    assert items + page == ObjectsAt(objs, at');
    if next.Some? {
      lo', a' := objs[p[limit - 1]].obj.version + 1, p[limit - 1];
    } else {
      lo', a' := lo, a;
    }
  }

  /** The page after a token starts at the slot of the object it names. */
  method PageAfter(store: Store, w: Watcher, token: Option<Token>, limit: nat, ghost lo: nat, ghost a: nat)
    returns (page: seq<ApiObject>, next: Option<Token>)
    requires store.Valid() && limit > 0 && Points(store.list.objs, w, token, lo, a)
    ensures store.list.lastObjIndex < |store.list.objs|
    ensures IsPage(store.list.objs, store.list.lastObjIndex,
                   Page(store.list.objs, store.list.lastObjIndex, w, lo, a, limit), limit, page, next)
  {
    hide Store.Valid, Listed, Page, SaysMore, At;
    if token.Some? { TokenHolds(store, w, 0, a); }
    var start, withRev := StartingIndex(store, token, 0);
    page, next := GetPage(store, w, start, withRev, false, limit);
  }

  /** Reads page after page while the store does not change. */
  method CollectPages(store: Store, w: Watcher, limit: nat) returns (items: seq<ApiObject>)
    requires store.Valid() && |store.list.objs| < MODULUS && limit > 0
    ensures store.list.lastObjIndex < |store.list.objs| && Rising(store.list.objs)
    ensures Filled(store.list.objs, Pages(store.list.objs, store.list.lastObjIndex, w, 1, 0, limit))
    ensures items == ObjectsAt(store.list.objs, Pages(store.list.objs, store.list.lastObjIndex, w, 1, 0, limit))
  {
    hide Store.Valid, Reading, Picked, Pages, Page, IsPage, Rising, ObjectsAt, Filled;
    ghost var objs, last := store.list.objs, store.list.lastObjIndex;
    AgreesStore(store);
    ghost var lo: nat, a: nat, at: seq<nat> := 1, 0, [];
    items := [];
    var token: Option<Token> := None;
    var more := true;
    assert Reading(objs, last, w, limit, items, token, more, lo, a, at) by { ReadingStarts(objs, last, w, limit); }
    while more
      invariant Reading(objs, last, w, limit, items, token, more, lo, a, at)
      decreases more, |Picked(objs, w, lo, a, last + 1)|
    {
      ReadingPoints(objs, last, w, limit, items, token, lo, a, at);
      var page, next := PageAfter(store, w, token, limit, lo, a);
      lo, a, at := ReadOn(objs, last, w, limit, items, token, lo, a, at, page, next);
      items, token, more := items + page, next, next.Some?;
    }
    ReadingEnds(objs, last, w, limit, items, token, lo, a, at);
  }

  lemma ReadingStarts(objs: seq<Slot>, last: nat, w: Watcher, limit: nat)
    requires last < |objs| < MODULUS && limit > 0 && Rising(objs)
    ensures Reading(objs, last, w, limit, [], None, true, 1, 0, [])
  {
  }

  lemma ReadingPoints(objs: seq<Slot>, last: nat, w: Watcher, limit: nat, items: seq<ApiObject>,
      token: Option<Token>, lo: nat, a: nat, at: seq<nat>)
    requires last < |objs| < MODULUS && limit > 0 && Rising(objs)
    requires Reading(objs, last, w, limit, items, token, true, lo, a, at)
    ensures Points(objs, w, token, lo, a)
  {
  }

  lemma ReadingEnds(objs: seq<Slot>, last: nat, w: Watcher, limit: nat, items: seq<ApiObject>,
      token: Option<Token>, lo: nat, a: nat, at: seq<nat>)
    requires last < |objs| < MODULUS && limit > 0 && Rising(objs)
    requires Reading(objs, last, w, limit, items, token, false, lo, a, at)
    ensures var p := Pages(objs, last, w, 1, 0, limit); Filled(objs, p) && items == ObjectsAt(objs, p)
  {
  }

  /** A client that reads all pages sees its view, without the last object exactly in the one case. */
  method ReadPages(store: Store, w: Watcher, limit: nat) returns (items: seq<ApiObject>)
    requires store.Valid() && |store.list.objs| < MODULUS && limit > 0 && w.recursive
    ensures forall i, j :: 0 <= i < j < |items| ==> items[i].version < items[j].version
    ensures forall o :: o in items ==> o.key in View(w, Stored(store.log)) && View(w, Stored(store.log))[o.key] == o
    ensures store.list.lastObjIndex < |store.list.objs|
    ensures (forall k :: k in View(w, Stored(store.log)) ==> View(w, Stored(store.log))[k] in items) <==>
            !LosesOne(store.list.objs, store.list.lastObjIndex, w, limit)
    ensures LosesOne(store.list.objs, store.list.lastObjIndex, w, limit) ==>
              AllButNewest(items, View(w, Stored(store.log)))
  {
    hide Store.Valid, LogAgrees, ListAgrees, Pages, View, Stored, LosesOne, AllButNewest;
    AgreesStore(store);
    PagesMeetView(store.kvs.view.objs, store.list.objs, store.list.lastObjIndex, store.rev, store.log, w, limit);
    items := CollectPages(store, w, limit);
  }

  lemma AgreesStore(store: Store)
    requires store.Valid()
    ensures store.list.lastObjIndex < |store.list.objs| && Rising(store.list.objs)
    ensures ListAgrees(store.kvs.view.objs, store.list.objs, store.list.lastObjIndex, store.rev)
    ensures LogAgrees(store.kvs.view.objs, store.log, store.rev)
  {
  }

  lemma SplitAtSlash(c: char)
    requires c != '/'
    ensures Split("/" + [c]) == ["", [c]]
  {
    assert ("/" + [c])[1..] == [c] && [c][1..] == "";
    assert Split("") == [""] && [c] + "" == [c];
    assert Split([c]) == [[c]];
  }

  lemma RoomForSecond(f: Flat)
    requires f.dirs == {Root} + PathsAbove(Split("/a"), |Split("/a")|) && f.objs.Keys == {At("/a")}
    ensures !Found(f, "/b") && At("/b") !in f.dirs
  {
    SplitAtSlash('a');
    SplitAtSlash('b');
    var a, b := ["", "a"], ["", "b"];
    assert "/" + ['a'] == "/a" && "/" + ['b'] == "/b";
    UptoSteps(a, 0);
    UptoSteps(b, 0);
    UptoSteps(b, 1);
    UptoEnd(a);
    UptoEnd(b);
    assert Upto(a, 0) == Root && Upto(b, 0) == Root && b[..2] == b;
    assert PathsAbove(a, 2) == {Root, Under(Root, "")};
  }

  /** A new store with two objects, read one object at a time: the second is never seen. */
  method SecondIsLost(startRev: nat, a: string, b: string) returns (store: Store, items: seq<ApiObject>)
    ensures fresh(store) && store.Valid()
    ensures var view := View(Watcher("/", true, None), Stored(store.log));
            "/a" in view && "/b" in view && view["/a"] in items && view["/b"] !in items
  {
    hide Store.Valid, Found, PathsAbove, LosesOne, At, Split, View, Stored, AllButNewest, Took, Listed;
    var w := Watcher("/", true, None);
    store := new Store(startRev);
    assert Stored([]) == map[] by { StartsEmpty(); }
    NothingThere("/a");
    var first := store.Create("/a", a);
    RoomForSecond(store.kvs.view);
    ghost var between := store.list.objs;
    var second := store.Create("/b", b);
    BothListed(between, store.list.objs, ApiObject("/a", a, startRev + 1), ApiObject("/b", b, startRev + 2));
    PagesOfOneLose(store.list.objs, store.list.lastObjIndex, w);
    items := ReadPages(store, w, 1);
    BothViewed(store.log, ApiObject("/a", a, startRev + 1), ApiObject("/b", b, startRev + 2), items);
  }

  lemma StartsEmpty()
    ensures Stored([]) == map[]
  {
  }

  lemma BothListed(between: seq<Slot>, objs: seq<Slot>, a: ApiObject, b: ApiObject)
    requires Took(Nils(INIT_SIZE), between, 1, a, false, None) && Took(between, objs, 2, b, false, None)
    requires "/" <= a.key && "/" <= b.key && 0 < a.version && 0 < b.version
    ensures var w := Watcher("/", true, None);
            |objs| < MODULUS && Listed(objs[1], w, 1) && Listed(objs[2], w, 1)
  {
  }

  lemma BothViewed(log: seq<ObjEvent>, a: ApiObject, b: ApiObject, items: seq<ApiObject>)
    requires Stored(log) == map[a.key := a, b.key := b] && a.key != b.key && a.version < b.version
    requires "/" <= a.key && "/" <= b.key && AllButNewest(items, View(Watcher("/", true, None), Stored(log)))
    ensures var view := View(Watcher("/", true, None), Stored(log));
            a.key in view && b.key in view && view[a.key] in items && view[b.key] !in items
  {
    hide Stored;
    var view := View(Watcher("/", true, None), Stored(log));
    assert view[a.key] == a && view[b.key] == b;
  }
}
