/**
  The store's revision-ordered object list: slots hold an object, a tombstone (an object marked as
  deleted) or nothing. Shrinking compacts it in one pass and renumbers the objects that move.
 */
module ObjList {
  import opened Common
  import opened StoreMap

  type Slot = ObjWithIndex?

  /** 2^64: lengths are unsigned 64-bit numbers, and their difference wraps around. */
  const MODULUS: nat := 0x1_0000_0000_0000_0000

  predicate Dead(v: Slot) {
    v == null || v.deleted
  }

  function DeadCount(s: seq<Slot>): nat {
    if s == [] then 0 else (if Dead(s[0]) then 1 else 0) + DeadCount(s[1..])
  }

  /** The live objects, in order. */
  function Live(s: seq<Slot>): seq<Slot> {
    if s == [] then [] else (if Dead(s[0]) then [] else [s[0]]) + Live(s[1..])
  }

  /** `s` without its first `drop` dead slots (without all of them, when there are fewer). */
  function Compact(s: seq<Slot>, drop: nat): seq<Slot> {
    if s == [] then []
    else if Dead(s[0]) && 0 < drop then Compact(s[1..], drop - 1)
    else [s[0]] + Compact(s[1..], drop)
  }

  /** Compaction drops dead slots only: every live object stays, in the same order. */
  lemma {:induction false} CompactKeepsLive(s: seq<Slot>, drop: nat)
    ensures Live(Compact(s, drop)) == Live(s)
    ensures |Compact(s, drop)| == |s| - Min(drop, DeadCount(s))
    ensures DeadCount(Compact(s, drop)) == DeadCount(s) - Min(drop, DeadCount(s))
  {
    if s != [] {
      if Dead(s[0]) && 0 < drop {
        CompactKeepsLive(s[1..], drop - 1);
      } else {
        CompactKeepsLive(s[1..], drop);
        assert ([s[0]] + Compact(s[1..], drop))[1..] == Compact(s[1..], drop);
      }
    }
  }

  /** Where compaction stops dropping: a prefix keeps only live objects, the rest is untouched. */
  lemma {:induction false} CompactSplits(s: seq<Slot>, drop: nat) returns (n: nat)
    ensures n <= |s| && Compact(s, drop) == Live(s[..n]) + s[n..]
    ensures DeadCount(s[..n]) == Min(drop, DeadCount(s))
  {
    if s == [] || drop == 0 {
      n := 0;
      NothingDropped(s);
    } else {
      var m := CompactSplits(s[1..], if Dead(s[0]) then drop - 1 else drop);
      n := m + 1;
      assert s[..n][1..] == s[1..][..m] && s[n..] == s[1..][m..];
    }
  }

  lemma {:induction false} NothingDropped(s: seq<Slot>)
    ensures Compact(s, 0) == s
  {
    if s != [] { NothingDropped(s[1..]); }
  }

  lemma {:induction false} DeadCountSnoc(s: seq<Slot>, v: Slot)
    ensures DeadCount(s + [v]) == DeadCount(s) + if Dead(v) then 1 else 0
  {
    if s == [] {
      assert s + [v] == [v] && [v][1..] == [];
    } else {
      assert (s + [v])[1..] == s[1..] + [v];
      DeadCountSnoc(s[1..], v);
    }
  }

  /** One more slot: it is dropped when it is dead and drops are left. */
  lemma {:induction false} CompactSnoc(s: seq<Slot>, drop: nat, v: Slot)
    ensures Compact(s + [v], drop) ==
            if Dead(v) && DeadCount(s) < drop then Compact(s, drop) else Compact(s, drop) + [v]
  {
    if s == [] {
      assert s + [v] == [v] && [v][1..] == [];
    } else {
      assert (s + [v])[1..] == s[1..] + [v];
      CompactSnoc(s[1..], if Dead(s[0]) && 0 < drop then drop - 1 else drop, v);
    }
  }

  function Nils(n: nat): seq<Slot> {
    seq(n, _ => null)
  }

  /** The position of the last slot in use; 0 when none is. */
  function LastUsed(s: seq<Slot>): nat {
    if s == [] then 0 else if s[|s| - 1] != null then |s| - 1 else LastUsed(s[..|s| - 1])
  }

  predicate Distinct(s: seq<Slot>) {
    forall i, j :: 0 <= i < j < |s| && s[i] != null ==> s[i] != s[j]
  }

  /** Every object in `s` carries its position. */
  ghost predicate Indexed(s: seq<Slot>)
    reads s
  {
    forall i :: 0 <= i < |s| && s[i] != null ==> s[i].index == i
  }

  /** `s`, filled up with empty slots to at least `length`. */
  function Pad(s: seq<Slot>, length: nat): seq<Slot> {
    if |s| < length then s + Nils(length - |s|) else s
  }

  function Shrunk(s: seq<Slot>, length: nat): seq<Slot> {
    Pad(Compact(s, (|s| - length) % MODULUS), length)
  }

  /** Shrinking to at most the current length drops min(length difference, dead slots) and adds nothing. */
  lemma ShrinkToShorter(s: seq<Slot>, length: nat)
    requires length <= |s| < MODULUS
    ensures Shrunk(s, length) == Compact(s, |s| - length)
    ensures |Shrunk(s, length)| == |s| - Min(|s| - length, DeadCount(s)) >= length
    ensures Live(Shrunk(s, length)) == Live(s)
  {
    CompactKeepsLive(s, |s| - length);
  }

  lemma {:induction false} DeadCountBound(s: seq<Slot>)
    ensures DeadCount(s) <= |s|
  {
    if s != [] { DeadCountBound(s[1..]); }
  }

  lemma {:induction false} NilsAreDead(n: nat)
    ensures Live(Nils(n)) == []
  {
    if n > 0 {
      assert Nils(n)[1..] == Nils(n - 1);
      NilsAreDead(n - 1);
    }
  }

  lemma {:induction false} LiveConcat(a: seq<Slot>, b: seq<Slot>)
    ensures Live(a + b) == Live(a) + Live(b)
  {
    if a == [] {
      assert a + b == b;
    } else {
      assert (a + b)[1..] == a[1..] + b;
      LiveConcat(a[1..], b);
    }
  }

  /** "Shrinking" to more than the current length wraps the difference around: every dead slot goes. */
  lemma ShrinkToLonger(s: seq<Slot>, length: nat)
    requires |s| < length < MODULUS
    ensures |Shrunk(s, length)| == length && Live(Shrunk(s, length)) == Live(s)
    ensures DeadCount(Compact(s, (|s| - length) % MODULUS)) == 0
  {
    var drop := (|s| - length) % MODULUS;
    assert drop == |s| - length + MODULUS;
    DeadCountBound(s);
    CompactKeepsLive(s, drop);
    var c := Compact(s, drop);
    LiveConcat(c, Nils(length - |c|));
    NilsAreDead(length - |c|);
  }

  lemma {:induction false} CompactFrom(s: seq<Slot>, drop: nat, v: Slot)
    requires v in Compact(s, drop)
    ensures v in s
  {
    if Dead(s[0]) && 0 < drop {
      CompactFrom(s[1..], drop - 1, v);
    } else if v != s[0] {
      CompactFrom(s[1..], drop, v);
    }
  }

  lemma PadSnoc(s: seq<Slot>, v: Slot, length: nat)
    ensures |s| < length ==> Pad(s, length)[|s| := v] == Pad(s + [v], length)
    ensures |s| >= length ==> Pad(s, length) + [v] == Pad(s + [v], length)
  {
    if |s| < length {
      assert Nils(length - |s|)[1..] == Nils(length - |s| - 1);
    }
  }

  lemma {:induction false} LastUsedPad(s: seq<Slot>, n: nat)
    ensures LastUsed(s + Nils(n)) == LastUsed(s)
  {
    if n == 0 {
      assert s + Nils(0) == s;
    } else {
      var t := s + Nils(n);
      assert t[|t| - 1] == null && t[..|t| - 1] == s + Nils(n - 1);
      LastUsedPad(s, n - 1);
    }
  }

  lemma NothingCopied(drop: nat, length: nat)
    ensures Compact([], drop) == [] && DeadCount([]) == 0 && LastUsed([]) == 0 && Pad([], length) == Nils(length)
  {
    assert [] + Nils(length) == Nils(length);
  }

  lemma LastUsedSnoc(s: seq<Slot>, v: Slot)
    ensures LastUsed(s + [v]) == if v == null then LastUsed(s) else |s|
  {
    assert (s + [v])[..|s|] == s;
  }

  lemma IndexedPad(s: seq<Slot>, length: nat)
    requires Indexed(s)
    ensures Indexed(Pad(s, length)) && LastUsed(Pad(s, length)) == LastUsed(s)
  {
    if |s| < length { LastUsedPad(s, length - |s|); }
  }

  lemma PadLength(s: seq<Slot>, length: nat)
    ensures |Pad(s, length)| == if |s| < length then length else |s|
  {
  }

  class List {
    var objs: seq<Slot>
    var lastObjIndex: nat

    constructor (size: nat)
      ensures objs == Nils(size) && lastObjIndex == 0
    {
      objs := Nils(size);
      lastObjIndex := 0;
    }

    /** Compacts the list towards `length`, renumbers its objects and finds the last slot in use. */
    method Shrink(length: nat)
      requires Distinct(objs) && |objs| < MODULUS && length < MODULUS
      modifies this, objs
      ensures objs == if length == |old(objs)| then old(objs) else Shrunk(old(objs), length)
      ensures length == |old(objs)| ==>
                lastObjIndex == old(lastObjIndex) && unchanged(set v | v in objs && v != null :: v)
      ensures length != |old(objs)| ==> Indexed(objs) && lastObjIndex == LastUsed(objs)
    {
      hide Compact, DeadCount, Pad, Nils, LastUsed, Distinct;
      var diff := (|objs| - length) % MODULUS;
      if diff <= 0 { return; }
      ghost var drop := diff;
      ghost var c: seq<Slot> := [];
      var newList := Nils(length);
      var i, lastIndex := 0, 0;
      var n := 0;
      NothingCopied(drop, length);
      assert objs[..0] == [];
      while n < |objs|
        invariant n <= |objs| && objs == old(objs)
        invariant c == Compact(objs[..n], drop) && i == |c| && newList == Pad(c, length)
        invariant diff == drop - Min(drop, DeadCount(objs[..n]))
        invariant Indexed(c) && lastIndex == LastUsed(c)
      {
        var v := objs[n];
        assert objs[..n + 1] == objs[..n] + [v];
        CompactSnoc(objs[..n], drop, v);
        DeadCountSnoc(objs[..n], v);
        LastUsedSnoc(c, v);
        if (v == null || v.deleted) && diff > 0 {
          diff := diff - 1;
        } else {
          PadSnoc(c, v, length);
          PadLength(c, length);
          if i < length {
            newList := newList[i := v];
          } else {
            newList := newList + [v];
          }
          if v != null {
            NotBefore(objs, n, c, drop);
            v.index := i;
            lastIndex := i;
          }
          c := c + [v];
          i := i + 1;
        }
        n := n + 1;
      }
      assert objs[..n] == objs;
      IndexedPad(c, length);
      objs := newList;
      lastObjIndex := lastIndex;
    }

    /** The list gets longer, but no object moves and every one keeps its number. */
    method Grow(length: nat)
      modifies this`objs
      ensures objs == old(objs) + Nils(length)
      ensures Live(objs) == Live(old(objs)) && LastUsed(objs) == LastUsed(old(objs))
      ensures Indexed(old(objs)) ==> Indexed(objs)
    {
      GrownKeeps(objs, length);
      objs := objs + Nils(length);
    }
  }

  lemma {:induction false} GrownKeeps(s: seq<Slot>, n: nat)
    ensures Live(s + Nils(n)) == Live(s) && LastUsed(s + Nils(n)) == LastUsed(s)
    ensures DeadCount(s + Nils(n)) == DeadCount(s) + n
  {
    if n == 0 {
      assert s + Nils(0) == s;
    } else {
      GrownKeeps(s, n - 1);
      var t := s + Nils(n - 1);
      assert s + Nils(n) == t + [null];
      DeadCountSnoc(t, null);
      LiveConcat(t, [null]);
      LastUsedSnoc(t, null);
    }
  }

  lemma {:induction false} DeadCountConcat(a: seq<Slot>, b: seq<Slot>)
    ensures DeadCount(a + b) == DeadCount(a) + DeadCount(b)
  {
    if a == [] {
      assert a + b == b;
    } else {
      assert (a + b)[1..] == a[1..] + b;
      DeadCountConcat(a[1..], b);
    }
  }

  lemma {:induction false} LastUsedWithin(a: seq<Slot>)
    ensures a != [] ==> LastUsed(a) < |a|
    ensures a == [] ==> LastUsed(a) == 0
  {
    if a != [] { LastUsedWithin(a[..|a| - 1]); }
  }

  /** `s` is the slots up to `n` and then empty ones. */
  predicate EmptyFrom(s: seq<Slot>, n: nat) {
    forall i :: n <= i < |s| ==> s[i] == null
  }

  /**
    Compacting a list that ends in at least `g - 1` empty slots until `g` dead ones are left: it still ends
    in as many, and at most one of the dead slots lies among those in use.
   */
  lemma CompactLeavesOne(s: seq<Slot>, last: nat, drop: nat, g: nat)
    requires last + g <= |s| && EmptyFrom(s, last + 1) && drop + g == DeadCount(s) && g > 0
    ensures var c := Compact(s, drop);
            c != [] && LastUsed(c) + g <= |c| && DeadCount(c[..LastUsed(c) + 1]) <= 1
  {
    var c := Compact(s, drop);
    CompactKeepsLive(s, drop);
    var n := CompactSplits(s, drop);
    assert s == s[..n] + s[n..];
    DeadCountConcat(s[..n], s[n..]);
    CompactTail(s, last, n, g);
    LastUsedWithin(c);
    DeadAfterLast(c);
  }

  /** What the untouched rest of a compacted list ends in. */
  lemma CompactTail(s: seq<Slot>, last: nat, n: nat, g: nat)
    requires last + g <= |s| && EmptyFrom(s, last + 1) && n <= |s| && DeadCount(s[n..]) == g && g > 0
    ensures var c := Live(s[..n]) + s[n..]; LastUsed(c) + g <= |c|
  {
    var c := Live(s[..n]) + s[n..];
    var a := if n <= last + 1 then Live(s[..n]) + s[n..last + 1] else Live(s[..n]);
    var k := if n <= last + 1 then |s| - last - 1 else |s| - n;
    assert c == a + Nils(k);
    GrownKeeps(a, k);
    LastUsedWithin(a);
    if n > last + 1 {
      assert s[n..] == [] + Nils(k);
      GrownKeeps([], k);
    } else if a == [] {
      assert s[n..] == [] + Nils(k);
      GrownKeeps([], k);
    }
  }

  lemma DeadAfterLast(c: seq<Slot>)
    requires c != []
    ensures LastUsed(c) < |c| && DeadCount(c) == DeadCount(c[..LastUsed(c) + 1]) + (|c| - LastUsed(c) - 1)
  {
    NothingAfterLast(c);
    var l := LastUsed(c) + 1;
    assert c == c[..l] + Nils(|c| - l);
    GrownKeeps(c[..l], |c| - l);
  }

  lemma {:induction false} NothingAfterLast(s: seq<Slot>)
    requires s != []
    ensures LastUsed(s) < |s| && EmptyFrom(s, LastUsed(s) + 1)
  {
    if s[|s| - 1] == null && |s| > 1 {
      NothingAfterLast(s[..|s| - 1]);
      assert forall i :: 0 <= i < |s| - 1 ==> s[i] == s[..|s| - 1][i];
    }
  }

  /** An object is met once: it is not among those already copied. */
  lemma NotBefore(s: seq<Slot>, n: nat, c: seq<Slot>, drop: nat)
    requires Distinct(s) && n < |s| && s[n] != null && c == Compact(s[..n], drop)
    ensures s[n] !in c
  {
    if s[n] in c {
      CompactFrom(s[..n], drop, s[n]);
    }
  }
}
