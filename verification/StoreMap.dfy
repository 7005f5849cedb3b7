/**
  The key/value part of the in-memory store: a trie of nested mutable maps, walked and updated
  through references. It is proved to implement a flat, prefix-free map from paths to objects.
 */
module StoreMap {

  /** A place in the trie: the names on the way down, the last one outermost. */
  datatype Path = Root | Under(parent: Path, name: string)

  function PathOf(keys: seq<string>): Path {
    if keys == [] then Root else Under(PathOf(keys[..|keys| - 1]), keys[|keys| - 1])
  }

  /** The path of the first `j` keys. */
  function Upto(keys: seq<string>, j: nat): Path
    requires j <= |keys|
  {
    PathOf(keys[..j])
  }

  lemma UptoSteps(keys: seq<string>, j: nat)
    requires j < |keys|
    ensures Upto(keys, j + 1) == Under(Upto(keys, j), keys[j])
  {
    assert keys[..j + 1][..j] == keys[..j];
  }

  lemma UptoEnd(keys: seq<string>)
    ensures Upto(keys, |keys|) == PathOf(keys)
  {
    assert keys[..|keys|] == keys;
  }

  function Depth(p: Path): nat {
    match p case Root => 0 case Under(q, _) => 1 + Depth(q)
  }

  lemma {:induction false} DepthOf(keys: seq<string>)
    ensures Depth(PathOf(keys)) == |keys|
  {
    if keys != [] { DepthOf(keys[..|keys| - 1]); }
  }

  lemma {:induction false} PathOfInjective(a: seq<string>, b: seq<string>)
    requires PathOf(a) == PathOf(b)
    ensures a == b
  {
    if a != [] && b != [] {
      PathOfInjective(a[..|a| - 1], b[..|b| - 1]);
      assert a == a[..|a| - 1] + [a[|a| - 1]] && b == b[..|b| - 1] + [b[|b| - 1]];
    }
  }

  /** `a` lies on the way from the root to `p`, or is `p`. */
  predicate IsPrefix(a: Path, p: Path) {
    a == p || (p.Under? && IsPrefix(a, p.parent))
  }

  /** An API object as stored: its key, the part that selectors look at, and its resource version. */
  datatype ApiObject = ApiObject(key: string, content: string, version: nat)

  class ObjWithIndex {
    const obj: ApiObject
    const deleted: bool
    var index: nat

    constructor (obj: ApiObject, index: nat, deleted: bool)
      ensures this.obj == obj && this.index == index && this.deleted == deleted
    {
      this.obj, this.index, this.deleted := obj, index, deleted;
    }
  }

  datatype Error = EmptyKeys | MiddleIsObject | LeafIsMap | VersionTooLarge
  datatype Outcome = Ok | Err(error: Error)

  // ---------- The abstract store ----------

  /** What a store means: its interior paths, and the object at each stored path. */
  datatype Flat = Flat(dirs: set<Path>, objs: map<Path, ObjWithIndex>)

  ghost predicate WellFormed(f: Flat) {
    && Root in f.dirs
    && (forall p: Path {:trigger p.parent} :: p in f.dirs && p.Under? ==> p.parent in f.dirs)
    && (forall p :: p in f.objs ==> p.Under? && p.parent in f.dirs)
    && f.dirs !! f.objs.Keys
  }

  /** No stored path lies on the way to another one: everything above a stored path is interior. */
  lemma {:induction false} PrefixFree(f: Flat, a: Path, p: Path)
    requires WellFormed(f) && IsPrefix(a, p) && a != p && (p in f.objs || p in f.dirs)
    ensures a in f.dirs && a !in f.objs
  {
    if a != p.parent {
      PrefixFree(f, a, p.parent);
    }
  }

  lemma {:induction false} UptoIsPrefix(keys: seq<string>, i: nat, j: nat)
    requires i <= j <= |keys|
    ensures IsPrefix(Upto(keys, i), Upto(keys, j))
    decreases j
  {
    if i < j {
      UptoIsPrefix(keys, i, j - 1);
      UptoSteps(keys, j - 1);
    }
  }

  /** The first `j` keys are a stored path, and no other number of them is. */
  ghost predicate OnlyStored(f: Flat, keys: seq<string>, j: nat)
    requires j <= |keys|
  {
    Upto(keys, j) in f.objs && forall i :: 0 <= i <= |keys| && i != j ==> Upto(keys, i) !in f.objs
  }

  lemma OnlyOnePrefix(f: Flat, keys: seq<string>, j: nat)
    requires WellFormed(f) && j <= |keys| && Upto(keys, j) in f.objs
    ensures OnlyStored(f, keys, j)
  {
    forall i | 0 <= i <= |keys| && i != j
      ensures Upto(keys, i) !in f.objs
    {
      DepthOf(keys[..i]);
      DepthOf(keys[..j]);
      if i < j {
        UptoIsPrefix(keys, i, j);
        PrefixFree(f, Upto(keys, i), Upto(keys, j));
      } else if Upto(keys, i) in f.objs {
        UptoIsPrefix(keys, j, i);
        PrefixFree(f, Upto(keys, j), Upto(keys, i));
      }
    }
  }

  /** Some proper, non-empty prefix of `keys` is a stored path. */
  ghost predicate ObjectOnTheWay(f: Flat, keys: seq<string>) {
    exists j :: 0 < j < |keys| && Upto(keys, j) in f.objs
  }

  ghost function PathsAbove(keys: seq<string>, n: nat): set<Path>
    requires n <= |keys|
  {
    set j | 0 <= j < n :: Upto(keys, j)
  }

  lemma PathsAboveSteps(keys: seq<string>, i: nat)
    requires i < |keys|
    ensures PathsAbove(keys, i + 1) == PathsAbove(keys, i) + {Upto(keys, i)}
  {
  }

  lemma {:induction false} DirsAbove(f: Flat, keys: seq<string>, i: nat)
    requires WellFormed(f) && i <= |keys| && Upto(keys, i) in f.dirs
    ensures PathsAbove(keys, i) <= f.dirs
  {
    if i > 0 {
      UptoSteps(keys, i - 1);
      assert Upto(keys, i).parent in f.dirs;
      DirsAbove(f, keys, i - 1);
      PathsAboveSteps(keys, i - 1);
    }
  }

  lemma {:induction false} NothingBelow(f: Flat, keys: seq<string>, i: nat, j: nat)
    requires WellFormed(f) && i < j <= |keys| && Upto(keys, i + 1) !in f.dirs && Upto(keys, i + 1) !in f.objs
    ensures Upto(keys, j) !in f.dirs && Upto(keys, j) !in f.objs
  {
    UptoSteps(keys, j - 1);
    if j > i + 1 {
      NothingBelow(f, keys, i, j - 1);
      assert Upto(keys, j).parent == Upto(keys, j - 1);
    }
  }

  /** When a walk ends at a missing name, or at the end of the keys, no prefix of them is stored. */
  lemma NothingStored(f: Flat, keys: seq<string>, i: nat)
    requires WellFormed(f) && i <= |keys| && Upto(keys, i) in f.dirs
    requires i < |keys| ==> Upto(keys, i + 1) !in f.dirs && Upto(keys, i + 1) !in f.objs
    ensures forall j :: 0 < j <= |keys| ==> Upto(keys, j) !in f.objs
    ensures forall j :: i < j <= |keys| ==> Upto(keys, j) !in f.dirs
  {
    DirsAbove(f, keys, i);
    forall j | 0 < j <= |keys|
      ensures Upto(keys, j) !in f.objs && (i < j ==> Upto(keys, j) !in f.dirs)
    {
      if j < i {
        assert Upto(keys, j) in PathsAbove(keys, i);
      } else if i < j {
        NothingBelow(f, keys, i, j);
      }
    }
  }

  lemma NoObjectAbove(f: Flat, keys: seq<string>, i: nat)
    requires WellFormed(f) && i < |keys| && Upto(keys, i) in f.dirs
    ensures forall j :: 0 <= j <= i ==> Upto(keys, j) !in f.objs
  {
    DirsAbove(f, keys, i);
    forall j | 0 <= j < i
      ensures Upto(keys, j) in f.dirs
    {
      assert Upto(keys, j) in PathsAbove(keys, i);
    }
  }

  ghost function PutOutcome(f: Flat, keys: seq<string>, expected: nat): Outcome {
    if keys == [] then Err(EmptyKeys)
    else if ObjectOnTheWay(f, keys) then Err(MiddleIsObject)
    else if PathOf(keys) in f.dirs then Err(LeafIsMap)
    else if PathOf(keys) in f.objs && expected < f.objs[PathOf(keys)].obj.version then Err(VersionTooLarge)
    else Ok
  }

  /** A refused put changes nothing; an accepted one changes only its own path and adds the maps above it. */
  ghost function AfterPut(f: Flat, keys: seq<string>, o: ObjWithIndex, expected: nat): Flat {
    if PutOutcome(f, keys, expected).Ok?
    then Flat(f.dirs + PathsAbove(keys, |keys|), f.objs[PathOf(keys) := o])
    else f
  }

  /** A put that has entered or created the first `i` maps. */
  ghost predicate Walked(f: Flat, now: Flat, keys: seq<string>, i: nat)
    requires i < |keys|
  {
    now == Flat(f.dirs + PathsAbove(keys, i + 1), f.objs)
  }

  lemma WalkedNowhere(f: Flat, keys: seq<string>)
    requires WellFormed(f) && keys != []
    ensures Upto(keys, 0) == Root && Root in f.dirs && Walked(f, f, keys, 0)
  {
    PathsAboveSteps(keys, 0);
    assert PathsAbove(keys, 0) == {};
    assert f.dirs + {Root} == f.dirs;
  }

  lemma WalkedSteps(f: Flat, now: Flat, keys: seq<string>, i: nat)
    requires i + 1 < |keys| && Walked(f, now, keys, i)
    ensures Walked(f, Flat(now.dirs + {Upto(keys, i + 1)}, now.objs), keys, i + 1)
  {
    PathsAboveSteps(keys, i + 1);
  }

  lemma WalkedBack(f: Flat, now: Flat, keys: seq<string>, i: nat)
    requires WellFormed(f) && i < |keys| && Walked(f, now, keys, i) && Upto(keys, i) in f.dirs
    ensures now == f
  {
    DirsAbove(f, keys, i);
    PathsAboveSteps(keys, i);
  }

  lemma OwnPathOnly(f: Flat, now: Flat, keys: seq<string>, i: nat)
    requires i + 1 < |keys| && Walked(f, now, keys, i)
    ensures Upto(keys, i + 1) in now.dirs <==> Upto(keys, i + 1) in f.dirs
  {
    forall j | 0 <= j <= i
      ensures Upto(keys, j) != Upto(keys, i + 1)
    {
      DepthOf(keys[..j]);
      DepthOf(keys[..i + 1]);
    }
  }

  /** Having entered every map above its leaf, a put meets its own path as the original store has it. */
  lemma ArrivedAtLeaf(f: Flat, now: Flat, keys: seq<string>)
    requires WellFormed(now) && keys != [] && Walked(f, now, keys, |keys| - 1)
    ensures !ObjectOnTheWay(f, keys)
    ensures PathOf(keys) == Under(Upto(keys, |keys| - 1), keys[|keys| - 1])
    ensures PathOf(keys) in now.dirs <==> PathOf(keys) in f.dirs
  {
    UptoEnd(keys);
    UptoSteps(keys, |keys| - 1);
    forall j | 0 <= j < |keys|
      ensures Upto(keys, j) in now.dirs && Upto(keys, j) != PathOf(keys)
    {
      DepthOf(keys[..j]);
      DepthOf(keys);
    }
  }

  ghost function DelOutcome(f: Flat, keys: seq<string>): Outcome {
    if keys == [] then Err(EmptyKeys)
    else if ObjectOnTheWay(f, keys) then Err(MiddleIsObject)
    else if PathOf(keys) in f.dirs then Err(LeafIsMap)
    else Ok
  }

  ghost function AfterDel(f: Flat, keys: seq<string>): Flat {
    if DelOutcome(f, keys).Ok? then f.(objs := f.objs - {PathOf(keys)}) else f
  }

  // ---------- Counting ----------

  /** Stored paths at or below `p`. */
  ghost function Below(f: Flat, p: Path): set<Path> {
    set q | q in f.objs && IsPrefix(p, q)
  }

  /** Stored paths that go through one of the names `ks` of node `p`. */
  ghost function BelowVia(f: Flat, p: Path, ks: set<string>): set<Path> {
    set q | q in f.objs && exists k :: k in ks && IsPrefix(Under(p, k), q)
  }

  ghost function DirsBelow(f: Flat, p: Path): set<Path> {
    set q | q in f.dirs && IsPrefix(p, q)
  }

  lemma {:induction false} PrefixDepth(a: Path, p: Path)
    requires IsPrefix(a, p)
    ensures Depth(a) <= Depth(p) && (a != p ==> Depth(a) < Depth(p))
  {
    if a != p { PrefixDepth(a, p.parent); }
  }

  lemma {:induction false} PrefixSameDepth(a: Path, b: Path, p: Path)
    requires IsPrefix(a, p) && IsPrefix(b, p) && Depth(a) == Depth(b)
    ensures a == b
  {
    if a != p && b != p {
      PrefixSameDepth(a, b, p.parent);
    } else {
      PrefixDepth(a, p);
      PrefixDepth(b, p);
    }
  }

  lemma {:induction false} PrefixTransitive(a: Path, b: Path, p: Path)
    requires IsPrefix(a, b) && IsPrefix(b, p)
    ensures IsPrefix(a, p)
  {
    if b != p { PrefixTransitive(a, b, p.parent); }
  }

  /** The name under `a` on the way to `p`. */
  lemma {:induction false} NextName(a: Path, p: Path) returns (k: string)
    requires IsPrefix(a, p) && a != p
    ensures IsPrefix(Under(a, k), p)
  {
    if a == p.parent { k := p.name; } else { k := NextName(a, p.parent); }
  }

  lemma BelowViaNone(f: Flat, p: Path)
    ensures BelowVia(f, p, {}) == {}
  {
  }

  lemma SplitBelow(f: Flat, p: Path, ks: set<string>, k: string)
    requires k !in ks
    ensures |BelowVia(f, p, ks + {k})| == |BelowVia(f, p, ks)| + |Below(f, Under(p, k))|
  {
    forall q | q in BelowVia(f, p, ks) && q in Below(f, Under(p, k))
      ensures false
    {
      var l :| l in ks && IsPrefix(Under(p, l), q);
      PrefixSameDepth(Under(p, l), Under(p, k), q);
    }
    assert BelowVia(f, p, ks) !! Below(f, Under(p, k));
    assert BelowVia(f, p, ks + {k}) == BelowVia(f, p, ks) + Below(f, Under(p, k));
  }

  lemma BelowObject(f: Flat, p: Path)
    requires WellFormed(f) && p in f.objs
    ensures Below(f, p) == {p}
  {
    forall q | q in Below(f, p)
      ensures q == p
    {
      if q != p { PrefixFree(f, p, q); }
    }
  }

  lemma AllBelow(f: Flat, p: Path, ks: set<string>)
    requires WellFormed(f) && p in f.dirs
    requires forall k :: Under(p, k) in f.dirs || Under(p, k) in f.objs ==> k in ks
    ensures BelowVia(f, p, ks) == Below(f, p)
  {
    forall q | q in f.objs
      ensures q in BelowVia(f, p, ks) <==> IsPrefix(p, q)
    {
      if IsPrefix(p, q) {
        var k := NextName(p, q);
        if Under(p, k) != q { PrefixFree(f, Under(p, k), q); }
      }
      if q in BelowVia(f, p, ks) {
        var k :| k in ks && IsPrefix(Under(p, k), q);
        assert IsPrefix(p, Under(p, k)) by { assert IsPrefix(p, Under(p, k).parent); }
        PrefixTransitive(p, Under(p, k), q);
      }
    }
  }

  lemma {:induction false} RootIsPrefix(p: Path)
    ensures IsPrefix(Root, p)
  {
    if p.Under? { RootIsPrefix(p.parent); }
  }

  lemma AllBelowRoot(f: Flat)
    ensures |Below(f, Root)| == |f.objs|
  {
    forall q | q in f.objs { RootIsPrefix(q); }
    assert Below(f, Root) == f.objs.Keys;
  }

  lemma {:induction false} Smaller(a: set<Path>, b: set<Path>)
    requires a <= b
    ensures |a| <= |b|
  {
    if a != {} {
      var x :| x in a;
      Smaller(a - {x}, b - {x});
    }
  }

  lemma FewerDirs(f: Flat, p: Path, k: string)
    requires p in f.dirs
    ensures |DirsBelow(f, Under(p, k))| < |DirsBelow(f, p)|
  {
    assert IsPrefix(p, Under(p, k)) by { assert IsPrefix(p, Under(p, k).parent); }
    forall q | q in DirsBelow(f, Under(p, k))
      ensures q in DirsBelow(f, p) && q != p
    {
      PrefixTransitive(p, Under(p, k), q);
      PrefixDepth(Under(p, k), q);
    }
    assert p in DirsBelow(f, p) && p !in DirsBelow(f, Under(p, k));
    Smaller(DirsBelow(f, Under(p, k)), DirsBelow(f, p) - {p});
  }

  // ---------- Runs of the abstract store ----------

  datatype Op = PutOp(keys: seq<string>, obj: ObjWithIndex, expected: nat) | DelOp(keys: seq<string>)

  ghost function Apply(f: Flat, op: Op): Flat {
    match op
    case PutOp(keys, o, expected) => AfterPut(f, keys, o, expected)
    case DelOp(keys) => AfterDel(f, keys)
  }

  ghost function ApplyAll(f: Flat, ops: seq<Op>): Flat
    decreases |ops|
  {
    if ops == [] then f else ApplyAll(Apply(f, ops[0]), ops[1..])
  }

  /** Every write carries a version above the one it expects to replace, as the store's revision counter ensures. */
  ghost predicate WritesAreNewer(ops: seq<Op>) {
    forall i :: 0 <= i < |ops| && ops[i].PutOp? ==> ops[i].expected < ops[i].obj.obj.version
  }

  /** As long as a path is not deleted, its object stays or is replaced by one of a strictly larger version. */
  lemma {:induction false} VersionsGrow(f: Flat, ops: seq<Op>, p: Path)
    requires p in f.objs && WritesAreNewer(ops)
    requires forall i :: 0 <= i < |ops| && ops[i].DelOp? ==> PathOf(ops[i].keys) != p
    ensures p in ApplyAll(f, ops).objs
    ensures ApplyAll(f, ops).objs[p] == f.objs[p] || f.objs[p].obj.version < ApplyAll(f, ops).objs[p].obj.version
    decreases |ops|
  {
    if ops != [] {
      var g := Apply(f, ops[0]);
      assert p in g.objs && (g.objs[p] == f.objs[p] || f.objs[p].obj.version < g.objs[p].obj.version);
      VersionsGrow(g, ops[1..], p);
    }
  }

  // ---------- The trie ----------

  datatype MapOrObj = Obj(obj: ObjWithIndex) | Sub(objMap: ObjStoreMap)

  /** The contents of every node, by path. */
  type Dump = map<Path, map<string, MapOrObj>>

  ghost predicate HasObj(d: Dump, p: Path) {
    p.Under? && p.parent in d && p.name in d[p.parent] && d[p.parent][p.name].Obj?
  }

  ghost function ObjAt(d: Dump, p: Path): ObjWithIndex
    requires HasObj(d, p)
  {
    d[p.parent][p.name].obj
  }

  ghost function Objs(d: Dump): (m: map<Path, ObjWithIndex>)
    ensures forall p :: p in m <==> HasObj(d, p)
    ensures forall p :: p in m ==> m[p] == ObjAt(d, p)
  {
    var all := set p, k | p in d && k in d[p] :: Under(p, k);
    map p | p in all && HasObj(d, p) :: ObjAt(d, p)
  }

  ghost function FlatOf(d: Dump): Flat {
    Flat(d.Keys, Objs(d))
  }

  ghost predicate ParentsLinked(nodes: map<Path, ObjStoreMap>, d: Dump) {
    forall p: Path {:trigger p.parent} :: p in nodes && p.Under? ==>
      p.parent in d && p.name in d[p.parent] && d[p.parent][p.name] == Sub(nodes[p])
  }

  ghost predicate ChildrenLinked(nodes: map<Path, ObjStoreMap>, d: Dump) {
    forall p, k {:trigger Under(p, k)} :: p in d && k in d[p] && d[p][k].Sub? ==> Under(p, k) in nodes
  }

  /** Paths and nodes correspond one to one, and every reference leads to the node of the longer path. */
  ghost predicate Shape(nodes: map<Path, ObjStoreMap>, d: Dump) {
    && d.Keys == nodes.Keys
    && Root in nodes
    && (forall p :: p in nodes ==> nodes[p].path == p)
    && ParentsLinked(nodes, d)
    && ChildrenLinked(nodes, d)
  }

  lemma FlatIsWellFormed(nodes: map<Path, ObjStoreMap>, d: Dump)
    requires Shape(nodes, d)
    ensures WellFormed(FlatOf(d))
  {
    forall p | p in FlatOf(d).objs
      ensures p.Under? && p.parent in FlatOf(d).dirs && p !in FlatOf(d).dirs
    {
      assert HasObj(d, p);
    }
  }

  /** What one name in a node leads to. */
  lemma OneStep(nodes: map<Path, ObjStoreMap>, d: Dump, p: Path, k: string)
    requires Shape(nodes, d) && p in d
    ensures k in d[p] && d[p][k].Sub? ==>
              Under(p, k) in nodes && nodes[Under(p, k)] == d[p][k].objMap && Under(p, k) !in FlatOf(d).objs
    ensures k in d[p] && d[p][k].Obj? ==>
              Under(p, k) in FlatOf(d).objs && FlatOf(d).objs[Under(p, k)] == d[p][k].obj && Under(p, k) !in nodes
    ensures k !in d[p] ==> Under(p, k) !in nodes && Under(p, k) !in FlatOf(d).objs
  {
    var c := Under(p, k);
    assert c.parent == p;
    assert c in FlatOf(d).objs <==> HasObj(d, c);
  }

  lemma ObjsAfterPut(d: Dump, p: Path, k: string, o: ObjWithIndex)
    requires p in d
    ensures Objs(d[p := d[p][k := Obj(o)]]) == Objs(d)[Under(p, k) := o]
  {
    var d' := d[p := d[p][k := Obj(o)]];
    forall q
      ensures q in Objs(d') <==> q in Objs(d)[Under(p, k) := o]
      ensures q in Objs(d') ==> Objs(d')[q] == Objs(d)[Under(p, k) := o][q]
    {
      assert HasObj(d', q) <==> HasObj(d, q) || q == Under(p, k);
    }
  }

  lemma PutObjEffect(nodes: map<Path, ObjStoreMap>, d: Dump, p: Path, k: string, o: ObjWithIndex)
    requires Shape(nodes, d) && p in d && (k in d[p] ==> d[p][k].Obj?)
    ensures var d' := d[p := d[p][k := Obj(o)]];
            Shape(nodes, d') && FlatOf(d') == Flat(FlatOf(d).dirs, FlatOf(d).objs[Under(p, k) := o])
  {
    ObjsAfterPut(d, p, k, o);
  }

  lemma ObjsAfterDel(d: Dump, p: Path, k: string)
    requires p in d
    ensures Objs(d[p := d[p] - {k}]) == Objs(d) - {Under(p, k)}
  {
    var d' := d[p := d[p] - {k}];
    forall q
      ensures q in Objs(d') <==> q in Objs(d) - {Under(p, k)}
      ensures q in Objs(d') ==> Objs(d')[q] == (Objs(d) - {Under(p, k)})[q]
    {
      assert HasObj(d', q) <==> HasObj(d, q) && q != Under(p, k);
    }
  }

  lemma DelEffect(nodes: map<Path, ObjStoreMap>, d: Dump, p: Path, k: string)
    requires Shape(nodes, d) && p in d && k in d[p] && d[p][k].Obj?
    ensures var d' := d[p := d[p] - {k}];
            Shape(nodes, d') && FlatOf(d') == Flat(FlatOf(d).dirs, FlatOf(d).objs - {Under(p, k)})
  {
    ObjsAfterDel(d, p, k);
  }

  lemma ObjsAfterPutMap(d: Dump, p: Path, k: string, c: ObjStoreMap)
    requires p in d && k !in d[p] && Under(p, k) !in d
    ensures Objs(d[p := d[p][k := Sub(c)]][Under(p, k) := map[]]) == Objs(d)
  {
    var d' := d[p := d[p][k := Sub(c)]][Under(p, k) := map[]];
    forall q
      ensures q in Objs(d') <==> q in Objs(d)
      ensures q in Objs(d') ==> Objs(d')[q] == Objs(d)[q]
    {
      assert HasObj(d', q) <==> HasObj(d, q);
    }
  }

  lemma ParentsAfterPutMap(nodes: map<Path, ObjStoreMap>, d: Dump, p: Path, k: string, c: ObjStoreMap)
    requires Shape(nodes, d) && p in d && k !in d[p]
    ensures ParentsLinked(nodes[Under(p, k) := c], d[p := d[p][k := Sub(c)]][Under(p, k) := map[]])
  {
    OneStep(nodes, d, p, k);
  }

  lemma ChildrenAfterPutMap(nodes: map<Path, ObjStoreMap>, d: Dump, p: Path, k: string, c: ObjStoreMap)
    requires Shape(nodes, d) && p in d && k !in d[p]
    ensures ChildrenLinked(nodes[Under(p, k) := c], d[p := d[p][k := Sub(c)]][Under(p, k) := map[]])
  {
    var d': Dump := d[p := d[p][k := Sub(c)]][Under(p, k) := map[]];
    forall q: Path, l: string | q in d' && l in d'[q] && d'[q][l].Sub?
      ensures Under(q, l) in nodes[Under(p, k) := c]
    {
      if q != p || l != k {
        assert q in d && l in d[q] && d[q][l].Sub?;
      }
    }
  }

  lemma ShapeAfterPutMap(nodes: map<Path, ObjStoreMap>, d: Dump, p: Path, k: string, c: ObjStoreMap)
    requires Shape(nodes, d) && p in d && k !in d[p] && c.path == Under(p, k)
    ensures Shape(nodes[Under(p, k) := c], d[p := d[p][k := Sub(c)]][Under(p, k) := map[]])
  {
    ParentsAfterPutMap(nodes, d, p, k, c);
    ChildrenAfterPutMap(nodes, d, p, k, c);
  }

  lemma PutObjMapEffect(nodes: map<Path, ObjStoreMap>, d: Dump, p: Path, k: string, c: ObjStoreMap)
    requires Shape(nodes, d) && p in d && k !in d[p] && c.path == Under(p, k)
    ensures var nodes', d' := nodes[Under(p, k) := c], d[p := d[p][k := Sub(c)]][Under(p, k) := map[]];
            Shape(nodes', d') && FlatOf(d') == Flat(FlatOf(d).dirs + {Under(p, k)}, FlatOf(d).objs)
  {
    OneStep(nodes, d, p, k);
    ObjsAfterPutMap(d, p, k, c);
    ShapeAfterPutMap(nodes, d, p, k, c);
  }

  class ObjStoreMap {
    var kvs: map<string, MapOrObj>
    /** Where the node hangs in its store. */
    ghost const path: Path
    /** At the root: the node at each interior path. */
    ghost var nodes: map<Path, ObjStoreMap>
    /** At the root: all nodes of the store, and what the store means. */
    ghost var repr: set<ObjStoreMap>
    ghost var view: Flat

    constructor (ghost path: Path)
      ensures kvs == map[] && this.path == path && nodes == map[Root := this] && repr == {this}
      ensures view == Flat({Root}, map[]) && (path == Root ==> Valid())
    {
      kvs := map[];
      this.path := path;
      repr := {this};
      view := Flat({Root}, map[]);
      new;
      nodes := map[Root := this];
      assert Contents() == map[Root := map[]];
    }

    ghost predicate Owned()
      reads this
    {
      this in repr && forall p :: p in nodes ==> nodes[p] in repr
    }

    ghost function Contents(): Dump
      requires Owned()
      reads this, repr
    {
      map p | p in nodes :: nodes[p].kvs
    }

    ghost predicate Valid()
      reads this, repr
    {
      Owned() && Shape(nodes, Contents()) && nodes[Root] == this && view == FlatOf(Contents())
    }

    lemma AbsWellFormed()
      requires Valid()
      ensures WellFormed(view) && view.dirs == nodes.Keys
      ensures Root in nodes && nodes[Root] == this
    {
      FlatIsWellFormed(nodes, Contents());
    }

    /** Writing to one node changes the dump at its path and nowhere else. */
    twostate lemma NodeChanged(p: Path)
      requires old(Owned()) && Owned() && p in nodes && nodes == old(nodes)
      requires forall q :: q in nodes ==> nodes[q].path == q
      requires forall q :: q in nodes && q != p ==> nodes[q].kvs == old(nodes[q].kvs)
      ensures Contents() == old(Contents())[p := nodes[p].kvs]
    {
    }

    twostate lemma NodeAdded(p: Path, new c: ObjStoreMap)
      requires old(Owned()) && Owned()
      requires forall q :: q in old(nodes) ==> old(nodes)[q].kvs == old(nodes[q].kvs)
      requires nodes == old(nodes)[p := c]
      ensures Contents() == old(Contents())[p := c.kvs]
    {
    }

    // The locked single-node updates; `root` is the store this node, at path `p`, belongs to.

    method PutObj(ghost root: ObjStoreMap, ghost p: Path, k: string, o: ObjWithIndex)
      requires root.Valid() && p in root.nodes && root.nodes[p] == this
      requires k in kvs ==> kvs[k].Obj?
      modifies this`kvs, root`view
      ensures root.Valid() && root.nodes == old(root.nodes) && root.repr == old(root.repr)
      ensures root.view == Flat(old(root.view.dirs), old(root.view.objs)[Under(p, k) := o])
    {
      hide ParentsLinked, ChildrenLinked, FlatOf;
      ghost var d := root.Contents();
      PutObjEffect(root.nodes, d, p, k, o);
      kvs := kvs[k := Obj(o)];
      root.view := root.view.(objs := root.view.objs[Under(p, k) := o]);
      root.NodeChanged(p);
    }

    method Delete(ghost root: ObjStoreMap, ghost p: Path, k: string)
      requires root.Valid() && p in root.nodes && root.nodes[p] == this
      requires k in kvs && kvs[k].Obj?
      modifies this`kvs, root`view
      ensures root.Valid() && root.nodes == old(root.nodes) && root.repr == old(root.repr)
      ensures root.view == Flat(old(root.view.dirs), old(root.view.objs) - {Under(p, k)})
    {
      hide ParentsLinked, ChildrenLinked, FlatOf;
      ghost var d := root.Contents();
      DelEffect(root.nodes, d, p, k);
      kvs := kvs - {k};
      root.view := root.view.(objs := root.view.objs - {Under(p, k)});
      root.NodeChanged(p);
    }

    method PutObjMap(ghost root: ObjStoreMap, ghost p: Path, k: string, objMap: ObjStoreMap)
      requires root.Valid() && p in root.nodes && root.nodes[p] == this
      requires k !in kvs && objMap.kvs == map[] && objMap.path == Under(p, k)
      modifies this`kvs, root`nodes, root`repr, root`view
      ensures root.Valid() && root.nodes == old(root.nodes)[Under(p, k) := objMap] && objMap.kvs == map[]
      ensures root.repr == old(root.repr) + {objMap}
      ensures root.view == Flat(old(root.view.dirs) + {Under(p, k)}, old(root.view.objs))
    {
      hide ParentsLinked, ChildrenLinked, FlatOf;
      PutObjMapEffect(root.nodes, root.Contents(), p, k, objMap);
      kvs := kvs[k := Sub(objMap)];
      root.NodeChanged(p);
      label Linked:
      root.nodes := root.nodes[Under(p, k) := objMap];
      root.repr := root.repr + {objMap};
      root.view := root.view.(dirs := root.view.dirs + {Under(p, k)});
      root.NodeAdded@Linked(Under(p, k), objMap);
    }

    // The walks over a whole key.

    lemma StepAt(p: Path, k: string)
      requires Valid() && p in nodes
      ensures k in nodes[p].kvs && nodes[p].kvs[k].Sub? ==>
                Under(p, k) in nodes && nodes[Under(p, k)] == nodes[p].kvs[k].objMap
      ensures k in nodes[p].kvs && nodes[p].kvs[k].Obj? ==>
                Under(p, k) in view.objs && view.objs[Under(p, k)] == nodes[p].kvs[k].obj
                && Under(p, k) !in nodes
      ensures k !in nodes[p].kvs ==> Under(p, k) !in nodes && Under(p, k) !in view.objs
    {
      OneStep(nodes, Contents(), p, k);
    }

    /** Follows references while there are maps; an object met on the way is returned. */
    method Get(keys: seq<string>) returns (o: ObjWithIndex?)
      requires Valid()
      ensures o != null ==> exists j :: 0 < j <= |keys| && OnlyStored(view, keys, j) && view.objs[Upto(keys, j)] == o
      ensures o == null ==> forall j :: 0 < j <= |keys| ==> Upto(keys, j) !in view.objs
    {
      hide Shape, FlatOf;
      AbsWellFormed();
      var thismm := this;
      var i := 0;
      while i < |keys|
        invariant i <= |keys| && Upto(keys, i) in nodes && nodes[Upto(keys, i)] == thismm
      {
        var k := keys[i];
        UptoSteps(keys, i);
        StepAt(Upto(keys, i), k);
        if k !in thismm.kvs {
          NothingStored(view, keys, i);
          return null;
        }
        match thismm.kvs[k] {
          case Obj(obj) =>
            OnlyOnePrefix(view, keys, i + 1);
            return obj;
          case Sub(objMap) => thismm := objMap;
        }
        i := i + 1;
      }
      NothingStored(view, keys, i);
      return null;
    }

    /** One step of a put on the way down: enter the map under `k`, creating it when the name is missing. */
    method Enter(thismm: ObjStoreMap, ghost p: Path, k: string) returns (next: ObjStoreMap?)
      requires Valid() && p in nodes && nodes[p] == thismm
      modifies this`nodes, this`repr, this`view, thismm`kvs
      ensures Valid() && fresh(repr - old(repr))
      ensures next == null <==> Under(p, k) in old(view).objs
      ensures next == null ==> view == old(view)
      ensures next != null ==> Under(p, k) in nodes && nodes[Under(p, k)] == next
      ensures next != null ==> view == Flat(old(view).dirs + {Under(p, k)}, old(view).objs)
      ensures next != null ==> Under(p, k) in old(view).dirs || next.kvs == map[]
    {
      hide Shape, FlatOf;
      AbsWellFormed();
      StepAt(p, k);
      if k !in thismm.kvs {
        next := new ObjStoreMap(Under(p, k));
        thismm.PutObjMap(this, p, k, next);
      } else {
        match thismm.kvs[k] {
          case Obj(_) => next := null;
          case Sub(objMap) =>
            next := objMap;
            assert view.dirs == view.dirs + {Under(p, k)};
        }
      }
    }

    /** The last step of a put. */
    method Store(thismm: ObjStoreMap, ghost p: Path, k: string, o: ObjWithIndex, expectedRV: nat) returns (res: Outcome)
      requires Valid() && p in nodes && nodes[p] == thismm
      modifies thismm`kvs, this`view
      ensures Valid() && nodes == old(nodes) && repr == old(repr)
      ensures res == (if Under(p, k) in old(view).dirs then Err(LeafIsMap)
                      else if Under(p, k) in old(view).objs && expectedRV < old(view).objs[Under(p, k)].obj.version
                      then Err(VersionTooLarge) else Ok)
      ensures view == if res.Ok? then old(view).(objs := old(view).objs[Under(p, k) := o]) else old(view)
      ensures !res.Ok? ==> k in thismm.kvs
    {
      hide Shape, FlatOf;
      AbsWellFormed();
      StepAt(p, k);
      if k in thismm.kvs {
        match thismm.kvs[k] {
          case Sub(_) => return Err(LeafIsMap);
          case Obj(present) =>
            if expectedRV < present.obj.version {
              return Err(VersionTooLarge);
            }
        }
      }
      thismm.PutObj(this, p, k, o);
      res := Ok;
    }

    /** Enters every map above the leaf; stops, with nothing changed, at an object on the way. */
    method Descend(keys: seq<string>) returns (thismm: ObjStoreMap?)
      requires Valid() && keys != []
      modifies repr
      ensures Valid() && fresh(repr - old(repr))
      ensures thismm == null ==> view == old(view) && ObjectOnTheWay(old(view), keys)
      ensures thismm != null ==>
                && Walked(old(view), view, keys, |keys| - 1)
                && Upto(keys, |keys| - 1) in nodes && nodes[Upto(keys, |keys| - 1)] == thismm
                && (Upto(keys, |keys| - 1) in old(view).dirs || thismm.kvs == map[])
    {
      hide Shape, FlatOf, WellFormed, Walked, PathsAbove;
      ghost var f := view;
      AbsWellFormed();
      thismm := this;
      var i := 0;
      WalkedNowhere(f, keys);
      while i < |keys| - 1
        invariant i < |keys| && Valid() && fresh(repr - old(repr))
        invariant thismm != null && Upto(keys, i) in nodes && nodes[Upto(keys, i)] == thismm
        invariant Walked(f, view, keys, i)
        invariant Upto(keys, i) in f.dirs || thismm.kvs == map[]
      {
        UptoSteps(keys, i);
        ghost var now := view;
        StepAt(Upto(keys, i), keys[i]);
        AbsWellFormed();
        var next := Enter(thismm, Upto(keys, i), keys[i]);
        if next == null {
          WalkedBack(f, now, keys, i);
          return null;
        }
        OwnPathOnly(f, now, keys, i);
        WalkedSteps(f, now, keys, i);
        thismm := next;
        i := i + 1;
      }
    }

    method Put(keys: seq<string>, o: ObjWithIndex, expectedRV: nat) returns (res: Outcome)
      requires Valid()
      modifies repr
      ensures Valid() && fresh(repr - old(repr))
      ensures res == PutOutcome(old(view), keys, expectedRV)
      ensures view == AfterPut(old(view), keys, o, expectedRV)
    {
      hide Shape, FlatOf, WellFormed, PathsAbove, Upto;
      if |keys| == 0 { return Err(EmptyKeys); }
      AbsWellFormed();
      var thismm := Descend(keys);
      if thismm == null { return Err(MiddleIsObject); }
      ghost var now := view;
      AbsWellFormed();
      ArrivedAtLeaf(old(view), now, keys);
      res := Store(thismm, Upto(keys, |keys| - 1), keys[|keys| - 1], o, expectedRV);
      if !res.Ok? {
        WalkedBack(old(view), now, keys, |keys| - 1);
      }
    }

    method Del(keys: seq<string>) returns (res: Outcome)
      requires Valid()
      modifies repr
      ensures Valid() && nodes == old(nodes) && repr == old(repr)
      ensures res == DelOutcome(old(view), keys)
      ensures view == AfterDel(old(view), keys)
    {
      hide Shape, FlatOf, Upto;
      if |keys| == 0 { return Err(EmptyKeys); }
      AbsWellFormed();
      WalkedNowhere(view, keys);
      var thismm := this;
      var i := 0;
      while true
        invariant i < |keys| && Upto(keys, i) in nodes && nodes[Upto(keys, i)] == thismm
        invariant Valid() && nodes == old(nodes) && repr == old(repr) && view == old(view)
        decreases |keys| - i
      {
        var k := keys[i];
        UptoSteps(keys, i);
        UptoEnd(keys);
        StepAt(Upto(keys, i), k);
        DirsAbove(view, keys, i);
        if k !in thismm.kvs {
          NothingStored(view, keys, i);
          assert view.objs - {PathOf(keys)} == view.objs;
          return Ok;
        }
        if i == |keys| - 1 {
          NoObjectAbove(view, keys, i);
          match thismm.kvs[k] {
            case Sub(_) => return Err(LeafIsMap);
            case Obj(_) =>
              thismm.Delete(this, Upto(keys, i), k);
              return Ok;
          }
        }
        match thismm.kvs[k] {
          case Obj(_) => return Err(MiddleIsObject);
          case Sub(objMap) => thismm := objMap;
        }
        i := i + 1;
      }
    }

    lemma AllNames(p: Path)
      requires Valid() && p in nodes
      ensures forall k :: Under(p, k) in view.dirs || Under(p, k) in view.objs ==> k in nodes[p].kvs
    {
      hide Shape, FlatOf;
      AbsWellFormed();
      forall k | Under(p, k) in view.dirs || Under(p, k) in view.objs
        ensures k in nodes[p].kvs
      {
        StepAt(p, k);
      }
    }

    lemma CountedAll(p: Path)
      requires Valid() && p in nodes
      ensures |BelowVia(view, p, nodes[p].kvs.Keys)| == |Below(view, p)|
      ensures p == Root ==> |Below(view, p)| == |view.objs|
    {
      hide Shape, FlatOf;
      AbsWellFormed();
      AllNames(p);
      AllBelow(view, p, nodes[p].kvs.Keys);
      AllBelowRoot(view);
    }

    /** What one entry adds to the count: one for an object, its own count for a map. */
    method CountEntry(ghost root: ObjStoreMap, ghost p: Path, k: string) returns (count: nat)
      requires root.Valid() && p in root.nodes && root.nodes[p] == this && k in kvs
      ensures count == |Below(root.view, Under(p, k))|
      decreases |DirsBelow(root.view, p)|, 0
    {
      hide Shape, FlatOf, Below, DirsBelow;
      root.AbsWellFormed();
      root.StepAt(p, k);
      match kvs[k] {
        case Obj(_) =>
          BelowObject(root.view, Under(p, k));
          count := 1;
        case Sub(objMap) =>
          FewerDirs(root.view, p, k);
          count := objMap.CountItemsInMap(root, Under(p, k));
      }
    }

    /** The number of objects at or below this node, counted map by map. */
    method CountItemsInMap(ghost root: ObjStoreMap, ghost p: Path) returns (count: nat)
      requires root.Valid() && p in root.nodes && root.nodes[p] == this
      ensures count == |Below(root.view, p)|
      ensures p == Root ==> count == |root.view.objs|
      decreases |DirsBelow(root.view, p)|, 1
    {
      hide Shape, FlatOf, WellFormed, Below, BelowVia, DirsBelow;
      ghost var f := root.view;
      root.AbsWellFormed();
      count := 0;
      var todo := kvs.Keys;
      ghost var done: set<string> := {};
      BelowViaNone(f, p);
      while todo != {}
        invariant done + todo == kvs.Keys && done !! todo
        invariant count == |BelowVia(f, p, done)|
        decreases |todo|
      {
        var k :| k in todo;
        SplitBelow(f, p, done, k);
        var n := CountEntry(root, p, k);
        count := count + n;
        done, todo := done + {k}, todo - {k};
      }
      assert done == kvs.Keys;
      root.CountedAll(p);
    }
  }
}
