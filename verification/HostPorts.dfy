/**
  The node's host-port allocator: a table of ten-port ranges. A pod's container ports take whole free
  ranges, ports are given back one by one, and the table is rebuilt from the ports of pods found
  running after a restart.
 */
module HostPorts {
  import opened Common

  const PORTS_PER_RANGE: int := 10

  datatype Slot =
    | Free
    | Used(allocatedPorts: int, rangeSize: int, nextPortNum: int, taken: bool)

  type Table = seq<Slot>

  predicate Available(s: Slot) { s.Free? || !s.taken }

  /** A slot in use has a port, and is marked as such. */
  predicate WellFormed(t: Table) {
    forall s :: 0 <= s < |t| && t[s].Used? ==> t[s].taken && t[s].allocatedPorts > 0
  }

  /** Go's integer division truncates toward zero. */
  function SlotOf(start: int, port: int): int {
    if port >= start then (port - start) / PORTS_PER_RANGE else -((start - port) / PORTS_PER_RANGE)
  }

  function First(start: int, s: nat): int { start + s * PORTS_PER_RANGE }

  /** Ports that are not set are skipped; any other must fall into the table. */
  predicate Indexable(start: int, size: nat, port: int) {
    port > 0 ==> 0 <= SlotOf(start, port) < size
  }

  predicate AllIndexable(start: int, size: nat, ports: seq<int>) {
    forall k :: 0 <= k < |ports| ==> Indexable(start, size, ports[k])
  }

  // ---------- What each operation does to the table ----------

  function FreeOne(start: int, t: Table, port: int): (r: Table)
    requires Indexable(start, |t|, port)
    ensures |r| == |t|
  {
    if port <= 0 then t
    else
      var s := SlotOf(start, port);
      if t[s].Free? then t
      else if t[s].allocatedPorts - 1 <= 0 then t[s := Free]
      else t[s := t[s].(allocatedPorts := t[s].allocatedPorts - 1)]
  }

  function FreeAll(start: int, t: Table, ports: seq<int>): (r: Table)
    requires AllIndexable(start, |t|, ports)
    ensures |r| == |t|
    decreases |ports|
  {
    if ports == [] then t
    else FreeOne(start, FreeAll(start, t, ports[..|ports| - 1]), ports[|ports| - 1])
  }

  function Grown(t: Table, s: nat): (r: Table)
    ensures s < |r| && t <= r
  {
    if s < |t| then t else t + seq(s + 10 - |t|, _ => Free)
  }

  function RecoverOne(start: int, t: Table, port: int): (r: Table)
    requires port > 0 ==> SlotOf(start, port) >= 0
    ensures |t| <= |r|
  {
    if port <= 0 then t
    else
      var s := SlotOf(start, port);
      var u := Grown(t, s);
      var slot := if u[s].Free? then Used(0, PORTS_PER_RANGE, First(start, s), true) else u[s];
      var next := if slot.nextPortNum >= port then slot.nextPortNum else port;
      u[s := Used(slot.allocatedPorts + 1, slot.rangeSize, next, true)]
  }

  /** A port beyond the table makes it reach ten slots from the port's on; one within it leaves the length alone. */
  lemma RecoveredLength(start: int, t: Table, port: int)
    requires port > 0 && SlotOf(start, port) >= 0
    ensures var s := SlotOf(start, port);
            |RecoverOne(start, t, port)| == if s < |t| then |t| else s + 10
  {
  }

  /** The slot of a recovered port counts one more, and its next number is at least the port's and any before. */
  lemma RecoveredSlot(start: int, t: Table, port: int)
    requires port > 0 && SlotOf(start, port) >= 0
    ensures var s, r := SlotOf(start, port), RecoverOne(start, t, port);
            var was := if s < |t| && t[s].Used? then t[s] else Used(0, 10, start + 10 * s, true);
            && r[s].Used? && r[s].taken && r[s].allocatedPorts == was.allocatedPorts + 1
            && r[s].rangeSize == was.rangeSize
            && r[s].nextPortNum >= port && r[s].nextPortNum >= was.nextPortNum
            && r[s].nextPortNum in {port, was.nextPortNum}
            && forall i :: 0 <= i < |r| && i != s ==> r[i] == if i < |t| then t[i] else Free
  {
  }

  predicate AllPlaceable(start: int, ports: seq<int>) {
    forall k :: 0 <= k < |ports| && ports[k] > 0 ==> SlotOf(start, ports[k]) >= 0
  }

  function RecoverAll(start: int, t: Table, ports: seq<int>): (r: Table)
    requires AllPlaceable(start, ports)
    ensures |t| <= |r|
    decreases |ports|
  {
    if ports == [] then t
    else RecoverOne(start, RecoverAll(start, t, ports[..|ports| - 1]), ports[|ports| - 1])
  }

  /** The first `m` ports of a slot. */
  function Block(start: int, s: nat, m: nat): (r: seq<int>)
    ensures |r| == m
  {
    seq(m, j => First(start, s) + j)
  }

  function Filled(start: int, s: nat, m: nat): Slot {
    Used(m, PORTS_PER_RANGE, First(start, s) + m, true)
  }

  /** Host ports handed out from the first `k` slots to a request for `n`. */
  function PortsFrom(start: int, t: Table, k: nat, n: nat): (r: seq<int>)
    requires k <= |t|
    ensures |r| <= n
  {
    if k == 0 then []
    else
      var p := PortsFrom(start, t, k - 1, n);
      if |p| < n && Available(t[k - 1]) then p + Block(start, k - 1, Min(PORTS_PER_RANGE, n - |p|)) else p
  }

  /** The table after handing them out. */
  function TableFrom(start: int, t: Table, k: nat, n: nat): (r: Table)
    requires k <= |t|
    ensures |r| == |t| && r[k..] == t[k..]
  {
    if k == 0 then t
    else
      var u := TableFrom(start, t, k - 1, n);
      var i := |PortsFrom(start, t, k - 1, n)|;
      if i < n && Available(t[k - 1]) then u[k - 1 := Filled(start, k - 1, Min(PORTS_PER_RANGE, n - i))] else u
  }

  /** How many slots are free. */
  function Room(t: Table): nat {
    if t == [] then 0 else Room(t[..|t| - 1]) + if Available(t[|t| - 1]) then 1 else 0
  }

  // ---------- How many ports a request gets ----------

  lemma {:induction false} PortsCount(start: int, t: Table, k: nat, n: nat)
    requires k <= |t|
    ensures |PortsFrom(start, t, k, n)| == Min(n, PORTS_PER_RANGE * Room(t[..k]))
  {
    if k > 0 {
      PortsCount(start, t, k - 1, n);
      assert t[..k][..k - 1] == t[..k - 1];
    } else {
      assert t[..0] == [];
    }
  }

  lemma {:induction false} RoomGrows(t: Table, k: nat, m: nat)
    requires k <= m <= |t|
    ensures Room(t[..k]) <= Room(t[..m])
    decreases m
  {
    if k < m {
      assert t[..m][..m - 1] == t[..m - 1];
      RoomGrows(t, k, m - 1);
    }
  }

  /** Nothing happens after the request is met. */
  lemma {:induction false} MetEarly(start: int, t: Table, k: nat, m: nat, n: nat)
    requires k <= m <= |t| && |PortsFrom(start, t, k, n)| == n
    ensures PortsFrom(start, t, m, n) == PortsFrom(start, t, k, n)
    ensures TableFrom(start, t, m, n) == TableFrom(start, t, k, n)
    decreases m
  {
    if k < m {
      MetEarly(start, t, k, m - 1, n);
    }
  }

  // ---------- Ports handed out ----------

  predicate Rising(ports: seq<int>) {
    forall i, j :: 0 <= i < j < |ports| ==> ports[i] < ports[j]
  }

  predicate Within(ports: seq<int>, lo: int, hi: int) {
    forall k :: 0 <= k < |ports| ==> lo <= ports[k] < hi
  }

  lemma {:induction false} PortsRise(start: int, t: Table, k: nat, n: nat)
    requires k <= |t|
    ensures Rising(PortsFrom(start, t, k, n)) && Within(PortsFrom(start, t, k, n), start, First(start, k))
  {
    if k > 0 {
      PortsRise(start, t, k - 1, n);
    }
  }

  /** Every port handed out lies in a slot that was free. */
  lemma {:induction false} PortsWereFree(start: int, t: Table, k: nat, n: nat, i: nat)
    requires k <= |t| && i < |PortsFrom(start, t, k, n)|
    ensures var p := PortsFrom(start, t, k, n)[i];
            0 <= SlotOf(start, p) < k && Available(t[SlotOf(start, p)])
  {
    var p := PortsFrom(start, t, k - 1, n);
    if i < |p| {
      PortsWereFree(start, t, k - 1, n, i);
    } else {
      assert PortsFrom(start, t, k, n)[i] == First(start, k - 1) + (i - |p|);
    }
  }

  /** While a request is not met, every free slot so far is handed out in full. */
  lemma {:induction false} FullSoFar(start: int, t: Table, k: nat, n: nat, s: nat, j: nat)
    requires s < k <= |t| && Available(t[s]) && j < PORTS_PER_RANGE && |PortsFrom(start, t, k, n)| < n
    ensures First(start, s) + j in PortsFrom(start, t, k, n)
    decreases k
  {
    var p := PortsFrom(start, t, k - 1, n);
    if s < k - 1 {
      FullSoFar(start, t, k - 1, n, s, j);
      assert forall x :: x in p ==> x in PortsFrom(start, t, k, n);
    } else {
      assert PortsFrom(start, t, k, n)[|p| + j] == First(start, s) + j;
    }
  }

  /** Slots are used from the lowest up: one is begun only when all free ones below it are handed out in full. */
  lemma {:induction false} LowestFirst(start: int, t: Table, k: nat, n: nat, i: nat, s: nat, j: nat)
    requires k <= |t| && i < |PortsFrom(start, t, k, n)| && s < k && Available(t[s]) && j < PORTS_PER_RANGE
    requires s < SlotOf(start, PortsFrom(start, t, k, n)[i])
    ensures First(start, s) + j in PortsFrom(start, t, k, n)
    decreases k
  {
    var p := PortsFrom(start, t, k - 1, n);
    PortsWereFree(start, t, k, n, i);
    if i < |p| {
      PortsWereFree(start, t, k - 1, n, i);
      LowestFirst(start, t, k - 1, n, i, s, j);
    } else {
      assert PortsFrom(start, t, k, n)[i] == First(start, k - 1) + (i - |p|);
      FullSoFar(start, t, k - 1, n, s, j);
    }
    assert forall x :: x in p ==> x in PortsFrom(start, t, k, n);
  }

  // ---------- Rollback ----------

  lemma {:induction false} FreeAllSplits(start: int, t: Table, a: seq<int>, b: seq<int>)
    requires AllIndexable(start, |t|, a) && AllIndexable(start, |t|, b)
    ensures AllIndexable(start, |t|, a + b)
    ensures FreeAll(start, t, a + b) == FreeAll(start, FreeAll(start, t, a), b)
    decreases |b|
  {
    if b == [] {
      assert a + b == a;
    } else {
      var c := b[..|b| - 1];
      FreeAllSplits(start, t, a, c);
      assert (a + b)[..|a + b| - 1] == a + c;
    }
  }

  /** Giving ports back leaves slots alone that they are not in. */
  lemma {:induction false} FreeElsewhere(start: int, t: Table, ports: seq<int>, s: nat, x: Slot)
    requires s < |t| && AllIndexable(start, |t|, ports)
    requires forall k :: 0 <= k < |ports| && ports[k] > 0 ==> SlotOf(start, ports[k]) != s
    ensures FreeAll(start, t[s := x], ports) == FreeAll(start, t, ports)[s := x]
    decreases |ports|
  {
    if ports != [] {
      FreeElsewhere(start, t, ports[..|ports| - 1], s, x);
    }
  }

  lemma BlockSlot(start: int, s: nat, m: nat)
    requires start > 0 && m <= PORTS_PER_RANGE
    ensures forall k :: 0 <= k < m ==> Block(start, s, m)[k] > 0 && SlotOf(start, Block(start, s, m)[k]) == s
  {
  }

  /** Giving back `m` of the ports of a slot that has `c` in use. */
  lemma {:induction false} FreeBlock(start: int, t: Table, s: nat, c: nat, m: nat)
    requires start > 0 && s < |t| && 0 < m <= c <= PORTS_PER_RANGE
    requires t[s].Used? && t[s].allocatedPorts == c
    ensures AllIndexable(start, |t|, Block(start, s, m))
    ensures FreeAll(start, t, Block(start, s, m)) ==
            if m == c then t[s := Free] else t[s := t[s].(allocatedPorts := c - m)]
    decreases m
  {
    BlockSlot(start, s, m);
    var b := Block(start, s, m);
    assert b[..m - 1] == Block(start, s, m - 1);
    if m > 1 {
      FreeBlock(start, t, s, c, m - 1);
    } else {
      assert FreeAll(start, t, []) == t;
    }
    assert FreeAll(start, t, b) == FreeOne(start, FreeAll(start, t, b[..m - 1]), b[m - 1]);
  }

  /** Giving back everything handed out restores the table. */
  lemma {:induction false} UndoAll(start: int, t: Table, k: nat, n: nat)
    requires start > 0 && k <= |t| && WellFormed(t)
    ensures AllIndexable(start, |t|, PortsFrom(start, t, k, n))
    ensures FreeAll(start, TableFrom(start, t, k, n), PortsFrom(start, t, k, n)) == t
  {
    var ports := PortsFrom(start, t, k, n);
    forall i | 0 <= i < |ports|
      ensures Indexable(start, |t|, ports[i])
    {
      PortsWereFree(start, t, k, n, i);
    }
    if k > 0 {
      var p, u := PortsFrom(start, t, k - 1, n), TableFrom(start, t, k - 1, n);
      UndoAll(start, t, k - 1, n);
      if |p| < n && Available(t[k - 1]) {
        UndoSlot(start, t, k, n);
      }
    }
  }

  lemma UndoSlot(start: int, t: Table, k: nat, n: nat)
    requires start > 0 && 0 < k <= |t| && WellFormed(t)
    requires AllIndexable(start, |t|, PortsFrom(start, t, k - 1, n))
             && AllIndexable(start, |t|, PortsFrom(start, t, k, n))
    requires FreeAll(start, TableFrom(start, t, k - 1, n), PortsFrom(start, t, k - 1, n)) == t
    requires |PortsFrom(start, t, k - 1, n)| < n && Available(t[k - 1])
    ensures FreeAll(start, TableFrom(start, t, k, n), PortsFrom(start, t, k, n)) == t
  {
    var p, u := PortsFrom(start, t, k - 1, n), TableFrom(start, t, k - 1, n);
    var m := Min(PORTS_PER_RANGE, n - |p|);
    var x := Filled(start, k - 1, m);
    forall i | 0 <= i < |p|
      ensures SlotOf(start, p[i]) != k - 1
    {
      PortsWereFree(start, t, k - 1, n, i);
    }
    FreeElsewhere(start, u, p, k - 1, x);
    FreeBlock(start, t[k - 1 := x], k - 1, m, m);
    FreeAllSplits(start, u[k - 1 := x], p, Block(start, k - 1, m));
    assert t[k - 1 := x][k - 1 := Free] == t;
  }

  /** Giving a port back has no effect. */
  predicate Harmless(start: int, t: Table, port: int)
    requires Indexable(start, |t|, port)
  {
    port > 0 ==> t[SlotOf(start, port)].Free?
  }

  function InUse(t: Table, s: nat): int
    requires s < |t|
  {
    if t[s].Free? then 0 else t[s].allocatedPorts
  }

  lemma FreeOneLess(start: int, t: Table, port: int)
    requires WellFormed(t) && Indexable(start, |t|, port)
    ensures WellFormed(FreeOne(start, t, port))
    ensures forall s :: 0 <= s < |t| ==>
              InUse(FreeOne(start, t, port), s) ==
              InUse(t, s) - if port > 0 && s == SlotOf(start, port) && t[s].Used? then 1 else 0
  {
  }

  lemma {:induction false} FreeAllLess(start: int, t: Table, ports: seq<int>, s: nat)
    requires WellFormed(t) && AllIndexable(start, |t|, ports) && s < |t|
    ensures WellFormed(FreeAll(start, t, ports))
    ensures InUse(FreeAll(start, t, ports), s) <= InUse(t, s)
    decreases |ports|
  {
    if ports != [] {
      var c := ports[..|ports| - 1];
      FreeAllLess(start, t, c, s);
      FreeOneLess(start, FreeAll(start, t, c), ports[|ports| - 1]);
    }
  }

  /** Giving ports back leaves the table as it is if and only if each of them lies in a free slot, or is not set. */
  lemma {:induction false} FreeAllHarmless(start: int, t: Table, ports: seq<int>)
    requires WellFormed(t) && AllIndexable(start, |t|, ports)
    ensures FreeAll(start, t, ports) == t <==> forall k :: 0 <= k < |ports| ==> Harmless(start, t, ports[k])
    decreases |ports|
  {
    if ports != [] {
      var c, p := ports[..|ports| - 1], ports[|ports| - 1];
      FreeAllHarmless(start, t, c);
      assert forall k :: 0 <= k < |c| ==> ports[k] == c[k];
      if FreeAll(start, t, c) == t {
        FreeOneLess(start, t, p);
      } else {
        FreeAllChanged(start, t, ports);
      }
    }
  }

  /** What was lost on the way is not regained. */
  lemma FreeAllChanged(start: int, t: Table, ports: seq<int>)
    requires WellFormed(t) && AllIndexable(start, |t|, ports) && ports != []
    requires FreeAll(start, t, ports[..|ports| - 1]) != t
    ensures FreeAll(start, t, ports) != t
  {
    var c := ports[..|ports| - 1];
    var u := FreeAll(start, t, c);
    var s :| 0 <= s < |t| && u[s] != t[s];
    FreeAllShape(start, t, c, s);
    FreeAllLess(start, t, c, s);
    FreeOneLess(start, u, ports[|ports| - 1]);
  }

  /** A slot changes only by having fewer ports in use. */
  lemma {:induction false} FreeAllShape(start: int, t: Table, ports: seq<int>, s: nat)
    requires WellFormed(t) && AllIndexable(start, |t|, ports) && s < |t|
    ensures FreeAll(start, t, ports)[s] != t[s] ==> InUse(FreeAll(start, t, ports), s) < InUse(t, s)
    decreases |ports|
  {
    if ports != [] {
      var c := ports[..|ports| - 1];
      FreeAllShape(start, t, c, s);
      FreeAllLess(start, t, c, s);
      FreeOneLess(start, FreeAll(start, t, c), ports[|ports| - 1]);
    }
  }

  // ---------- Live ports over a run ----------

  ghost function On(start: int, live: set<int>, s: nat): set<int> {
    set p | p in live && First(start, s) <= p < First(start, s + 1)
  }

  /** The table counts the live ports, range by range. */
  ghost predicate Counted(start: int, t: Table, live: set<int>) {
    && WellFormed(t)
    && (forall p :: p in live ==> start <= p < First(start, |t|))
    && (forall s :: 0 <= s < |t| ==> InUse(t, s) == |On(start, live, s)|)
  }

  lemma FreeIffNoneLive(start: int, t: Table, live: set<int>, s: nat)
    requires Counted(start, t, live) && s < |t|
    ensures t[s].Free? <==> On(start, live, s) == {}
  {
    assert InUse(t, s) == |On(start, live, s)|;
  }

  ghost predicate NoRepeat(ports: seq<int>) {
    forall i, j :: 0 <= i < j < |ports| && ports[i] > 0 ==> ports[i] != ports[j]
  }

  ghost predicate NotBelow(start: int, ports: seq<int>) {
    forall k :: 0 <= k < |ports| && ports[k] > 0 ==> ports[k] >= start
  }

  ghost function Ports(ports: seq<int>): set<int> {
    set p | p in ports && p > 0
  }

  lemma PortsSnoc(ports: seq<int>)
    requires ports != []
    ensures Ports(ports) == Ports(ports[..|ports| - 1]) + if ports[|ports| - 1] > 0 then {ports[|ports| - 1]} else {}
    ensures NoRepeat(ports) ==> NoRepeat(ports[..|ports| - 1]) && ports[|ports| - 1] !in Ports(ports[..|ports| - 1])
  {
    assert ports == ports[..|ports| - 1] + [ports[|ports| - 1]];
  }

  lemma FreeOneCounted(start: int, t: Table, live: set<int>, p: int)
    requires start > 0 && Counted(start, t, live) && p in live
    ensures Indexable(start, |t|, p) && Counted(start, FreeOne(start, t, p), live - {p})
  {
    var u, i := FreeOne(start, t, p), SlotOf(start, p);
    FreeOneLess(start, t, p);
    FreeIffNoneLive(start, t, live, i);
    assert p in On(start, live, i);
    forall s | 0 <= s < |u|
      ensures InUse(u, s) == |On(start, live - {p}, s)|
    {
      if s == i {
        assert On(start, live - {p}, s) == On(start, live, s) - {p};
      } else {
        assert On(start, live - {p}, s) == On(start, live, s);
      }
    }
  }

  lemma {:induction false} FreeAllCounted(start: int, t: Table, live: set<int>, ports: seq<int>)
    requires start > 0 && Counted(start, t, live) && NoRepeat(ports) && Ports(ports) <= live
    ensures AllIndexable(start, |t|, ports) && Counted(start, FreeAll(start, t, ports), live - Ports(ports))
    decreases |ports|
  {
    if ports == [] {
      assert live - Ports(ports) == live;
    } else {
      var c, p := ports[..|ports| - 1], ports[|ports| - 1];
      PortsSnoc(ports);
      FreeAllCounted(start, t, live, c);
      if p > 0 {
        FreeOneCounted(start, FreeAll(start, t, c), live - Ports(c), p);
        assert live - Ports(ports) == live - Ports(c) - {p};
      } else {
        assert Ports(ports) == Ports(c);
      }
    }
  }

  lemma RecoverOneMore(start: int, t: Table, p: int)
    requires 0 < start <= p && WellFormed(t)
    ensures WellFormed(RecoverOne(start, t, p)) && p < First(start, |RecoverOne(start, t, p)|)
    ensures forall s :: 0 <= s < |RecoverOne(start, t, p)| ==>
              InUse(RecoverOne(start, t, p), s) ==
              (if s < |t| then InUse(t, s) else 0) + if s == SlotOf(start, p) then 1 else 0
  {
  }

  lemma OnPlus(start: int, live: set<int>, p: int, s: nat)
    requires p >= start && p !in live
    ensures |On(start, live + {p}, s)| == |On(start, live, s)| + if s == SlotOf(start, p) then 1 else 0
  {
    assert On(start, live + {p}, s) == On(start, live, s) + if s == SlotOf(start, p) then {p} else {};
  }

  lemma RecoverOneCounted(start: int, t: Table, live: set<int>, p: int)
    requires start > 0 && Counted(start, t, live) && p !in live && p >= start
    ensures Counted(start, RecoverOne(start, t, p), live + {p})
  {
    hide RecoverOne;
    var u := RecoverOne(start, t, p);
    RecoverOneMore(start, t, p);
    forall s | 0 <= s < |u|
      ensures InUse(u, s) == |On(start, live + {p}, s)|
    {
      OnPlus(start, live, p, s);
      assert s >= |t| ==> On(start, live, s) == {};
    }
  }

  lemma {:induction false} RecoverAllCounted(start: int, t: Table, live: set<int>, ports: seq<int>)
    requires start > 0 && Counted(start, t, live) && NoRepeat(ports) && Ports(ports) !! live
    requires NotBelow(start, ports)
    ensures Counted(start, RecoverAll(start, t, ports), live + Ports(ports))
    decreases |ports|
  {
    if ports == [] {
      assert live + Ports(ports) == live;
    } else {
      var c, p := ports[..|ports| - 1], ports[|ports| - 1];
      PortsSnoc(ports);
      RecoverAllCounted(start, t, live, c);
      if p > 0 {
        RecoverOneCounted(start, RecoverAll(start, t, c), live + Ports(c), p);
        assert live + Ports(ports) == live + Ports(c) + {p};
      } else {
        assert Ports(ports) == Ports(c);
      }
    }
  }

  lemma {:induction false} BlockCounts(start: int, s: nat, m: nat)
    requires start > 0 && m <= PORTS_PER_RANGE
    ensures |Ports(Block(start, s, m))| == m
    ensures On(start, Ports(Block(start, s, m)), s) == Ports(Block(start, s, m))
    decreases m
  {
    var b := Block(start, s, m);
    if m > 0 {
      BlockCounts(start, s, m - 1);
      PortsSnoc(b);
      assert b[..m - 1] == Block(start, s, m - 1);
    } else {
      assert Ports(b) == {};
    }
  }

  /** Handing out ports: none of them is live, and the table counts them too. */
  lemma {:induction false} PortsCounted(start: int, t: Table, live: set<int>, k: nat, n: nat)
    requires start > 0 && k <= |t| && Counted(start, t, live)
    ensures Ports(PortsFrom(start, t, k, n)) !! live
    ensures Counted(start, TableFrom(start, t, k, n), live + Ports(PortsFrom(start, t, k, n)))
  {
    var r := PortsFrom(start, t, k, n);
    if k == 0 {
      assert live + Ports(r) == live;
    } else {
      PortsCounted(start, t, live, k - 1, n);
      var p := PortsFrom(start, t, k - 1, n);
      if |p| < n && Available(t[k - 1]) {
        var m := Min(PORTS_PER_RANGE, n - |p|);
        PortsRise(start, t, k - 1, n);
        assert Ports(r) == Ports(p) + Ports(Block(start, k - 1, m));
        FreeIffNoneLive(start, t, live, k - 1);
        assert On(start, live + Ports(p), k - 1) == {};
        SlotCounted(start, TableFrom(start, t, k - 1, n), live + Ports(p), k - 1, m);
        assert live + Ports(r) == live + Ports(p) + Ports(Block(start, k - 1, m));
      }
    }
  }

  lemma SlotCounted(start: int, t: Table, live: set<int>, i: nat, m: nat)
    requires start > 0 && i < |t| && Counted(start, t, live) && On(start, live, i) == {} && 0 < m <= PORTS_PER_RANGE
    ensures Ports(Block(start, i, m)) !! live
    ensures Counted(start, t[i := Filled(start, i, m)], live + Ports(Block(start, i, m)))
  {
    var u, b := t[i := Filled(start, i, m)], Ports(Block(start, i, m));
    BlockCounts(start, i, m);
    forall p | p in b
      ensures p !in live && First(start, i) <= p < First(start, i + 1)
    {
      assert p in On(start, b, i);
      assert p in live ==> p in On(start, live, i);
    }
    forall s | 0 <= s < |u|
      ensures InUse(u, s) == |On(start, live + b, s)|
    {
      if s == i {
        assert On(start, live + b, s) == b;
      } else {
        assert On(start, live + b, s) == On(start, live, s);
      }
    }
  }

  datatype Op = Recover(ports: seq<int>) | Allocate(n: nat) | Deallocate(ports: seq<int>)

  datatype State = State(table: Table, live: set<int>)

  predicate Succeeds(t: Table, n: nat) {
    t != [] && n <= PORTS_PER_RANGE * Room(t[..|t| - 1])
  }

  /** Ports recovered are in range and were not known; ports given back are live; none is named twice. */
  ghost predicate Allowed(start: int, st: State, op: Op) {
    match op
    case Recover(ports) => NoRepeat(ports) && Ports(ports) !! st.live && NotBelow(start, ports)
    case Allocate(n) => true
    case Deallocate(ports) => NoRepeat(ports) && Ports(ports) <= st.live && AllIndexable(start, |st.table|, ports)
  }

  ghost function Apply(start: int, st: State, op: Op): State
    requires start > 0 && Allowed(start, st, op)
  {
    match op
    case Recover(ports) =>
      State(RecoverAll(start, st.table, ports), st.live + Ports(ports))
    case Allocate(n) =>
      if Succeeds(st.table, n) then
        State(TableFrom(start, st.table, |st.table|, n), st.live + Ports(PortsFrom(start, st.table, |st.table|, n)))
      else st
    case Deallocate(ports) => State(FreeAll(start, st.table, ports), st.live - Ports(ports))
  }

  ghost predicate CanRun(start: int, st: State, ops: seq<Op>)
    requires start > 0
    decreases |ops|
  {
    ops == [] || (Allowed(start, st, ops[0]) && CanRun(start, Apply(start, st, ops[0]), ops[1..]))
  }

  ghost function Run(start: int, st: State, ops: seq<Op>): State
    requires start > 0 && CanRun(start, st, ops)
    decreases |ops|
  {
    if ops == [] then st else Run(start, Apply(start, st, ops[0]), ops[1..])
  }

  ghost function Fresh(size: nat): State {
    State(seq(size, _ => Free), {})
  }

  lemma ApplyCounted(start: int, st: State, op: Op)
    requires start > 0 && Allowed(start, st, op) && Counted(start, st.table, st.live)
    ensures Counted(start, Apply(start, st, op).table, Apply(start, st, op).live)
  {
    match op
    case Recover(ports) => RecoverAllCounted(start, st.table, st.live, ports);
    case Allocate(n) => PortsCounted(start, st.table, st.live, |st.table|, n);
    case Deallocate(ports) => FreeAllCounted(start, st.table, st.live, ports);
  }

  lemma {:induction false} RunCounted(start: int, st: State, ops: seq<Op>)
    requires start > 0 && CanRun(start, st, ops) && Counted(start, st.table, st.live)
    ensures Counted(start, Run(start, st, ops).table, Run(start, st, ops).live)
    decreases |ops|
  {
    if ops != [] {
      ApplyCounted(start, st, ops[0]);
      RunCounted(start, Apply(start, st, ops[0]), ops[1..]);
    }
  }

  /** After any run, the ports of the next allocation are in range, differ from each other and from every live port. */
  lemma NeverReused(start: int, size: nat, ops: seq<Op>, n: nat)
    requires start > 0 && CanRun(start, Fresh(size), ops)
    ensures var st := Run(start, Fresh(size), ops);
            var ports := PortsFrom(start, st.table, |st.table|, n);
            && (forall s :: 0 <= s < |st.table| ==> (st.table[s].Free? <==> On(start, st.live, s) == {}))
            && Ports(ports) !! st.live && Rising(ports) && Within(ports, start, First(start, |st.table|))
            && (Succeeds(st.table, n) ==> |ports| == n)
  {
    var st := Run(start, Fresh(size), ops);
    var t := st.table;
    assert forall s: nat :: On(start, {}, s) == {};
    RunCounted(start, Fresh(size), ops);
    PortsCounted(start, t, st.live, |t|, n);
    PortsRise(start, t, |t|, n);
    forall s | 0 <= s < |t|
      ensures t[s].Free? <==> On(start, st.live, s) == {}
    {
      FreeIffNoneLive(start, t, st.live, s);
    }
    if Succeeds(t, n) {
      PortsCount(start, t, |t| - 1, n);
      MetEarly(start, t, |t| - 1, |t|, n);
    }
  }

  // ---------- The allocator ----------

  class ContainerPort {
    var hostPort: int

    constructor (hostPort: int)
      ensures this.hostPort == hostPort
    {
      this.hostPort := hostPort;
    }
  }

  ghost function Numbers(ports: seq<ContainerPort>): (r: seq<int>)
    reads ports
    ensures |r| == |ports| && forall k :: 0 <= k < |ports| ==> r[k] == ports[k].hostPort
  {
    if ports == [] then [] else Numbers(ports[..|ports| - 1]) + [ports[|ports| - 1].hostPort]
  }

  ghost predicate Distinct(ports: seq<ContainerPort>) {
    forall i, j :: 0 <= i < j < |ports| ==> ports[i] != ports[j]
  }

  class HostPortRange {
    const startingPort: int
    var rangeSlots: Table

    constructor (rangeNum: nat, startingPort: int)
      requires startingPort > 0
      ensures Valid() && this.startingPort == startingPort && rangeSlots == Fresh(rangeNum).table
    {
      this.startingPort := startingPort;
      this.rangeSlots := seq(rangeNum, _ => Free);
    }

    ghost predicate Valid()
      reads this
    {
      startingPort > 0 && WellFormed(rangeSlots)
    }

    /** Gives one port back. */
    method Release(hostPort: int)
      requires Valid() && Indexable(startingPort, |rangeSlots|, hostPort)
      modifies this
      ensures Valid() && rangeSlots == FreeOne(startingPort, old(rangeSlots), hostPort)
    {
      if hostPort > 0 {
        var slotNo := SlotOf(startingPort, hostPort);
        if rangeSlots[slotNo].Used? {
          var slot := rangeSlots[slotNo];
          rangeSlots := rangeSlots[slotNo := slot.(allocatedPorts := slot.allocatedPorts - 1)];
          if rangeSlots[slotNo].allocatedPorts <= 0 {
            rangeSlots := rangeSlots[slotNo := Free];
          }
        }
      }
    }

    method DeallocateHostPort(containerPorts: seq<ContainerPort>)
      requires Valid() && AllIndexable(startingPort, |rangeSlots|, Numbers(containerPorts))
      modifies this
      ensures Valid() && rangeSlots == FreeAll(startingPort, old(rangeSlots), Numbers(containerPorts))
    {
      ghost var ports := Numbers(containerPorts);
      for k := 0 to |containerPorts|
        invariant Valid() && |rangeSlots| == |old(rangeSlots)|
        invariant AllIndexable(startingPort, |rangeSlots|, ports[..k])
        invariant rangeSlots == FreeAll(startingPort, old(rangeSlots), ports[..k])
      {
        assert ports[..k + 1][..k] == ports[..k];
        Release(containerPorts[k].hostPort);
      }
      assert ports[..|ports|] == ports;
    }

    /** Hands out ports of one slot, from the container port at `i0` on. */
    method FillSlot(containerPorts: seq<ContainerPort>, i0: nat, slotNo: nat) returns (slot: Slot, i: nat)
      requires Distinct(containerPorts) && i0 < |containerPorts|
      modifies containerPorts
      ensures i == i0 + Min(PORTS_PER_RANGE, |containerPorts| - i0)
      ensures slot == Filled(startingPort, slotNo, i - i0)
      ensures Numbers(containerPorts) ==
              old(Numbers(containerPorts))[..i0] + Block(startingPort, slotNo, i - i0) +
              old(Numbers(containerPorts))[i..]
    {
      slot := Used(0, PORTS_PER_RANGE, First(startingPort, slotNo), true);
      i := i0;
      var j := 0;
      while j < slot.rangeSize && i < |containerPorts|
        invariant 0 <= j <= PORTS_PER_RANGE && i == i0 + j <= |containerPorts|
        invariant slot == Filled(startingPort, slotNo, j)
        invariant forall k :: 0 <= k < |containerPorts| ==>
                    containerPorts[k].hostPort ==
                    if i0 <= k < i then First(startingPort, slotNo) + (k - i0) else old(containerPorts[k].hostPort)
      {
        var port := containerPorts[i];
        port.hostPort := slot.nextPortNum;
        slot := slot.(nextPortNum := slot.nextPortNum + 1, allocatedPorts := slot.allocatedPorts + 1);
        i := i + 1;
        j := j + 1;
      }
    }

    /**
      Succeeds exactly when the free slots other than the last one have room. A failed attempt gives
      back what it handed out, but also every number that other container ports came with.
     */
    method AllocateHostPort(containerPorts: seq<ContainerPort>) returns (ok: bool)
      requires Valid() && Distinct(containerPorts)
      requires AllIndexable(startingPort, |rangeSlots|, Unserved(rangeSlots, Numbers(containerPorts)))
      modifies this, containerPorts
      ensures Valid()
      ensures ok <==> Succeeds(old(rangeSlots), |containerPorts|)
      ensures ok ==>
                && Numbers(containerPorts) ==
                   PortsFrom(startingPort, old(rangeSlots), |old(rangeSlots)|, |containerPorts|)
                && rangeSlots == TableFrom(startingPort, old(rangeSlots), |old(rangeSlots)|, |containerPorts|)
      ensures !ok ==>
                Numbers(containerPorts) ==
                PortsFrom(startingPort, old(rangeSlots), |old(rangeSlots)|, |containerPorts|) +
                Unserved(old(rangeSlots), old(Numbers(containerPorts)))
      ensures !ok ==>
                rangeSlots ==
                FreeAll(startingPort, old(rangeSlots), Unserved(old(rangeSlots), old(Numbers(containerPorts))))
      ensures !ok ==>
                (rangeSlots == old(rangeSlots) <==>
                 forall k :: PORTS_PER_RANGE * Room(old(rangeSlots)) <= k < |containerPorts| ==>
                   && Indexable(startingPort, |old(rangeSlots)|, old(Numbers(containerPorts))[k])
                   && Harmless(startingPort, old(rangeSlots), old(Numbers(containerPorts))[k]))
    {
      hide Progress, PortsFrom, TableFrom, FreeAll, Harmless, Room, AllIndexable, Indexable, WellFormed, Numbers;
      hide Block, Filled, Unserved, Succeeds, Distinct, Min, SlotOf;
      ghost var t, was := rangeSlots, Numbers(containerPorts);
      StartsOut(startingPort, t, was);
      var i: nat := 0;
      for slotNo := 0 to |rangeSlots|
        invariant Progress(startingPort, t, was, slotNo, rangeSlots, Numbers(containerPorts), i)
        invariant i <= |containerPorts| == |was| && |rangeSlots| == |t|
      {
        if i == |containerPorts| {
          Succeeded(startingPort, t, was, slotNo, rangeSlots, Numbers(containerPorts));
          return true;
        }
        var slot := rangeSlots[slotNo];
        if Available(slot) {
          ghost var numbers, i0 := Numbers(containerPorts), i;
          slot, i := FillSlot(containerPorts, i, slotNo);
          Fills(startingPort, t, was, slotNo, rangeSlots, numbers, i0, i);
          rangeSlots := rangeSlots[slotNo := slot];
        } else {
          Skips(startingPort, t, was, slotNo, rangeSlots, Numbers(containerPorts), i);
        }
      }
      Failed(startingPort, t, was, rangeSlots, Numbers(containerPorts), i);
      RestoredIff(startingPort, t, was);
      DeallocateHostPort(containerPorts);
      return false;
    }

    /** Counts in one port, making the table longer where it is too short. */
    method Recover(hostPort: int)
      requires Valid() && hostPort > 0 && SlotOf(startingPort, hostPort) >= 0
      modifies this
      ensures Valid() && rangeSlots == RecoverOne(startingPort, old(rangeSlots), hostPort)
    {
      var slotNo := SlotOf(startingPort, hostPort);
      if slotNo >= |rangeSlots| {
        rangeSlots := rangeSlots + seq(slotNo + 10 - |rangeSlots|, _ => Free);
      }
      var slot := rangeSlots[slotNo];
      if slot.Free? {
        slot := Used(0, PORTS_PER_RANGE, First(startingPort, slotNo), true);
      }
      slot := slot.(taken := true, allocatedPorts := slot.allocatedPorts + 1,
                    nextPortNum := if slot.nextPortNum >= hostPort then slot.nextPortNum else hostPort);
      rangeSlots := rangeSlots[slotNo := slot];
    }

    /** Counts in the ports of pods found running. */
    method InitRangeWithContainerPorts(hostPorts: seq<int>)
      requires Valid() && AllPlaceable(startingPort, hostPorts)
      modifies this
      ensures Valid() && rangeSlots == RecoverAll(startingPort, old(rangeSlots), hostPorts)
    {
      hide RecoverOne, WellFormed;
      for k := 0 to |hostPorts|
        invariant Valid() && AllPlaceable(startingPort, hostPorts[..k])
        invariant rangeSlots == RecoverAll(startingPort, old(rangeSlots), hostPorts[..k])
      {
        assert hostPorts[..k + 1][..k] == hostPorts[..k];
        if hostPorts[k] <= 0 {
          NotSet(startingPort, rangeSlots, hostPorts[k]);
          continue;
        }
        Recover(hostPorts[k]);
      }
      assert hostPorts[..|hostPorts|] == hostPorts;
    }
  }

  lemma NotSet(start: int, t: Table, port: int)
    requires port <= 0
    ensures RecoverOne(start, t, port) == t
  {
  }

  // ---------- Progress of one allocation ----------

  /** The first `k` slots have been offered, and the request was not met before the last of them. */
  ghost predicate Progress(start: int, t: Table, was: seq<int>, k: nat, slots: Table, numbers: seq<int>, i: nat) {
    && start > 0 && WellFormed(t) && AllIndexable(start, |t|, Unserved(t, was))
    && k <= |t| && i <= |was|
    && i == |PortsFrom(start, t, k, |was|)|
    && slots == TableFrom(start, t, k, |was|)
    && numbers == PortsFrom(start, t, k, |was|) + was[i..]
    && (k > 0 ==> |PortsFrom(start, t, k - 1, |was|)| < |was|)
  }

  lemma StartsOut(start: int, t: Table, was: seq<int>)
    requires start > 0 && WellFormed(t) && AllIndexable(start, |t|, Unserved(t, was))
    ensures Progress(start, t, was, 0, t, was, 0)
  {
    assert was == [] + was[0..];
  }

  lemma SlotKept(start: int, t: Table, k: nat, n: nat)
    requires k < |t|
    ensures TableFrom(start, t, k, n)[k] == t[k]
  {
    assert TableFrom(start, t, k, n)[k..][0] == t[k..][0];
  }

  lemma Skips(start: int, t: Table, was: seq<int>, k: nat, slots: Table, numbers: seq<int>, i: nat)
    requires Progress(start, t, was, k, slots, numbers, i) && k < |t| == |slots| && i < |was| && !Available(slots[k])
    ensures Progress(start, t, was, k + 1, slots, numbers, i)
  {
    SlotKept(start, t, k, |was|);
  }

  lemma Fills(start: int, t: Table, was: seq<int>, k: nat, slots: Table, numbers: seq<int>, i: nat, e: nat)
    requires Progress(start, t, was, k, slots, numbers, i) && k < |t| == |slots| && i < |was| == |numbers|
             && Available(slots[k])
    requires e == i + Min(PORTS_PER_RANGE, |was| - i)
    ensures Progress(start, t, was, k + 1, slots[k := Filled(start, k, e - i)],
                     numbers[..i] + Block(start, k, e - i) + numbers[e..], e)
  {
    SlotKept(start, t, k, |was|);
    Spliced(PortsFrom(start, t, k, |was|), was, Block(start, k, e - i));
  }

  /** Overwriting what follows `p`. */
  lemma Spliced(p: seq<int>, was: seq<int>, block: seq<int>)
    requires |p| + |block| <= |was|
    ensures var q := p + was[|p|..];
            q[..|p|] + block + q[|p| + |block|..] == (p + block) + was[|p + block|..]
  {
  }

  lemma Succeeded(start: int, t: Table, was: seq<int>, k: nat, slots: Table, numbers: seq<int>)
    requires Progress(start, t, was, k, slots, numbers, |was|) && k < |t|
    ensures Succeeds(t, |was|) && WellFormed(slots)
    ensures numbers == PortsFrom(start, t, |t|, |was|)
    ensures slots == TableFrom(start, t, |t|, |was|)
  {
    hide WellFormed, AllIndexable, PortsFrom, TableFrom, Room;
    MetEarly(start, t, k, |t|, |was|);
    PortsCount(start, t, k, |was|);
    RoomGrows(t, k, |t| - 1);
    TableWellFormed(start, t, |t|, |was|);
  }

  lemma {:induction false} TableWellFormed(start: int, t: Table, k: nat, n: nat)
    requires start > 0 && WellFormed(t) && k <= |t|
    ensures WellFormed(TableFrom(start, t, k, n))
  {
    if k > 0 {
      TableWellFormed(start, t, k - 1, n);
    }
  }

  /** A request not met before the last slot is undone, together with the numbers that unserved ports came with. */
  lemma Failed(start: int, t: Table, was: seq<int>, slots: Table, numbers: seq<int>, i: nat)
    requires Progress(start, t, was, |t|, slots, numbers, i)
    ensures !Succeeds(t, |was|) && WellFormed(slots) && |slots| == |t|
    ensures numbers == PortsFrom(start, t, |t|, |was|) + Unserved(t, was)
    ensures AllIndexable(start, |t|, numbers) && AllIndexable(start, |t|, Unserved(t, was))
    ensures FreeAll(start, slots, numbers) == FreeAll(start, t, Unserved(t, was))
  {
    var n := |was|;
    assert t[..|t|] == t;
    PortsCount(start, t, |t|, n);
    if t != [] { PortsCount(start, t, |t| - 1, n); }
    TableWellFormed(start, t, |t|, n);
    UndoAll(start, t, |t|, n);
    assert Unserved(t, was) == was[i..];
    FreeAllSplits(start, slots, PortsFrom(start, t, |t|, n), was[i..]);
  }

  /** The table is as it was exactly when no unserved port came with the number of a slot in use. */
  lemma RestoredIff(start: int, t: Table, was: seq<int>)
    requires WellFormed(t) && AllIndexable(start, |t|, Unserved(t, was))
    ensures FreeAll(start, t, Unserved(t, was)) == t <==>
            forall k :: PORTS_PER_RANGE * Room(t) <= k < |was| ==>
              Indexable(start, |t|, was[k]) && Harmless(start, t, was[k])
  {
    var u := Unserved(t, was);
    FreeAllHarmless(start, t, u);
    forall k | PORTS_PER_RANGE * Room(t) <= k < |was|
      ensures Indexable(start, |t|, was[k]) && was[k] == u[k - PORTS_PER_RANGE * Room(t)]
    {
      assert Indexable(start, |t|, u[k - PORTS_PER_RANGE * Room(t)]);
    }
  }

  /** Numbers that ports came with which no slot has room for. */
  function Unserved(t: Table, ports: seq<int>): seq<int> {
    if PORTS_PER_RANGE * Room(t) < |ports| then ports[PORTS_PER_RANGE * Room(t)..] else []
  }

  /**
    A node with one slot, one of whose ports was found in use: an attempt for a container port that came with that
    number fails, and frees the slot under the pod that has it.
   */
  method FailureFreesSlot(start: int) returns (range: HostPortRange, ghost before: Table, ok: bool)
    requires start > 0
    ensures fresh(range) && range.startingPort == start && before == [Used(1, PORTS_PER_RANGE, start, true)]
    ensures !ok && range.rangeSlots == [Free]
  {
    hide PortsFrom, TableFrom;
    range := new HostPortRange(1, start);
    assert range.rangeSlots == [Free] && SlotOf(start, start) == 0;
    OneRecovered(start);
    range.InitRangeWithContainerPorts([start]);
    before := range.rangeSlots;
    var port := new ContainerPort(start);
    assert Room(before) == 0 by { assert before[..0] == []; }
    assert Numbers([port]) == [start] && Unserved(before, [start]) == [start];
    ok := range.AllocateHostPort([port]);
    assert FreeAll(start, before, [start]) == [Free] by { assert [start][..0] == []; }
  }

  lemma OneRecovered(start: int)
    requires start > 0
    ensures AllPlaceable(start, [start])
    ensures RecoverAll(start, [Free], [start]) == [Used(1, PORTS_PER_RANGE, start, true)]
  {
    assert [start][..0] == [];
  }
}
