/**
  The scheduler's two queues: pods to schedule now, and pods waiting for a retry.
 */
module ScheduleQueue {
  import opened Common
  import opened PriorityQueue

  /** The wall clock, which does not run backwards between two readings. */
  method Now(last: int) returns (t: int)
    ensures t >= last
  {
    t :| t >= last;
  }

  class SchedulePriorityQueue {
    const queue: PriorityQueue

    constructor ()
      ensures fresh(queue) && queue.Valid() && queue.items == map[] && queue.repr == {}
    {
      queue := new PriorityQueue();
    }

    /** Keeps the copy already queued under that name, if there is one. */
    method AddPod(pod: Pod, delay: int, now: int)
      requires queue.Valid()
      modifies queue, queue.repr
      ensures queue.Valid() && fresh(queue.repr - old(queue.repr))
      ensures queue.items == if pod.name in old(queue.items) then old(queue.items)
                             else old(queue.items)[pod.name := Item(pod, now + delay)]
    {
      var _, item := queue.Get(pod.name);
      if item == None {
        queue.HeapPush(Item(pod, now + delay));
      }
    }

    method RemovePod(pod: Pod) returns (removed: Option<Pod>)
      requires queue.Valid()
      modifies queue, queue.repr
      ensures queue.Valid() && queue.repr == old(queue.repr)
      ensures queue.items == old(queue.items) - {pod.name}
      ensures removed == if pod.name in old(queue.items) then Some(old(queue.items)[pod.name].pod) else None
    {
      var index, item := queue.Get(pod.name);
      if item != None {
        LinkedNames(queue.queue, queue.indexes, queue.items);
        var gone := queue.HeapRemove(index);
        removed := Some(gone.pod);
      } else {
        removed := None;
      }
    }

    /** Takes an item of least rank; none exactly when there is none. */
    method NextItem() returns (item: Option<Item>)
      requires queue.Valid()
      modifies queue, queue.repr
      ensures queue.Valid() && queue.repr == old(queue.repr)
      ensures item == None <==> old(queue.items) == map[]
      ensures item == None ==> queue.items == old(queue.items)
      ensures item.Some? ==>
                && item.value.pod.name in old(queue.items) && old(queue.items)[item.value.pod.name] == item.value
                && (forall n :: n in old(queue.items) ==> Rank(item.value) <= Rank(old(queue.items)[n]))
                && queue.items == old(queue.items) - {item.value.pod.name}
    {
      var last := queue.Peak();
      if last == None {
        return None;
      }
      var first := queue.HeapPop();
      item := Some(first);
    }

    /** The popping loop of `ReviveBackoffItem`. */
    method TakeDue(now: int) returns (pods: seq<Pod>)
      requires queue.Valid()
      modifies queue, queue.repr
      ensures queue.Valid() && fresh(queue.repr - old(queue.repr))
      ensures Due(pods, old(queue.items), now)
      ensures StillWaiting(queue.items, old(queue.items), Names(pods), now)
    {
      hide PriorityQueue.Valid, Rank, Due, StillWaiting, Names;
      pods := [];
      ghost var was := queue.items;
      NothingDue(was, now);
      while true
        invariant queue.Valid() && queue.repr == old(queue.repr)
        invariant queue.items == was - Names(pods)
        invariant Due(pods, was, now)
        decreases |queue.items|
      {
        var item := NextItem();
        if item == None {
          NoneWaiting(was, Names(pods), now);
          return;
        }
        if item.value.requestTime < now {
          DueOneMore(pods, was, now, item.value);
          pods := pods + [item.value.pod];
        } else {
          var later := Now(now);
          var wait := item.value.requestTime - now;
          PutBack(was, Names(pods), queue.items, item.value, Item(item.value.pod, later + wait), now);
          AddPod(item.value.pod, wait, later);
          return;
        }
      }
    }
  }

  lemma LinkedNames(queue: Array, indexes: map<string, QueueItem>, items: Items)
    requires Linked(queue, indexes, items)
    ensures forall n :: n in items ==> items[n].pod.name == n
  {
  }

  ghost function Names(pods: seq<Pod>): set<string> {
    set p | p in pods :: p.name
  }

  lemma NamesSnoc(pods: seq<Pod>, pod: Pod)
    ensures Names(pods + [pod]) == Names(pods) + {pod.name}
  {
    assert forall p :: p in pods + [pod] <==> p in pods || p == pod;
    assert pod in pods + [pod];
  }

  /** The pods were due at `now` and waited in `was`. */
  ghost predicate Due(pods: seq<Pod>, was: Items, now: int) {
    forall p :: p in pods ==> p.name in was && was[p.name].pod == p && was[p.name].requestTime < now
  }

  /**
    What stays waiting: every other pod, with its copy, not earlier than before, and not before `now`'s
    millisecond.
   */
  ghost predicate StillWaiting(after: Items, was: Items, moved: set<string>, now: int) {
    && after.Keys == was.Keys - moved
    && forall n :: n in after ==>
         && after[n].pod == was[n].pod
         && was[n].requestTime <= after[n].requestTime
         && Millis(now) <= Rank(after[n])
  }

  lemma DueOneMore(pods: seq<Pod>, was: Items, now: int, item: Item)
    requires Due(pods, was, now)
    requires item.pod.name in was && was[item.pod.name] == item && item.requestTime < now
    ensures Due(pods + [item.pod], was, now)
    ensures was - Names(pods + [item.pod]) == was - Names(pods) - {item.pod.name}
  {
    NamesSnoc(pods, item.pod);
  }

  lemma NothingDue(was: Items, now: int)
    ensures Due([], was, now) && was - Names([]) == was
  {
  }

  lemma NoneWaiting(was: Items, moved: set<string>, now: int)
    requires was - moved == map[]
    ensures StillWaiting(was - moved, was, moved, now)
  {
  }

  /** Putting the first pod that is not due back, a moment later. */
  lemma PutBack(was: Items, moved: set<string>, left: Items, item: Item, back: Item, now: int)
    requires item.pod.name in was - moved && was[item.pod.name] == item && left == was - moved - {item.pod.name}
    requires forall n :: n in was - moved ==> Rank(item) <= Rank(was[n])
    requires now <= item.requestTime <= back.requestTime && back.pod == item.pod
    ensures item.pod.name !in left
    ensures StillWaiting(left[item.pod.name := back], was, moved, now)
  {
  }

  /** Adding the pods one by one, each at its own time. */
  ghost predicate AddedTo(after: Items, was: Items, pods: seq<Pod>, now: int) {
    && after.Keys == was.Keys + Names(pods)
    && (forall n :: n in was && n !in Names(pods) ==> after[n] == was[n])
    && (forall n :: n in Names(pods) ==> after[n].pod in pods && after[n].pod.name == n && now <= after[n].requestTime)
  }

  lemma AddedOneMore(after: Items, was: Items, pods: seq<Pod>, now: int, pod: Pod, at: int)
    requires AddedTo(after, was, pods, now) && now <= at
    ensures AddedTo(after[pod.name := Item(pod, at)], was, pods + [pod], now)
  {
    NamesSnoc(pods, pod);
  }

  class PodScheduleQueue {
    const activeQueue: SchedulePriorityQueue
    const backoffRetryQueue: SchedulePriorityQueue

    constructor ()
      ensures fresh(activeQueue.queue) && fresh(backoffRetryQueue.queue) && Valid()
      ensures Active() == map[] && Backoff() == map[]
    {
      activeQueue := new SchedulePriorityQueue();
      backoffRetryQueue := new SchedulePriorityQueue();
    }

    ghost function Active(): Items
      reads activeQueue.queue
    {
      activeQueue.queue.items
    }

    ghost function Backoff(): Items
      reads backoffRetryQueue.queue
    {
      backoffRetryQueue.queue.items
    }

    /** Every pod waiting in one of the queues, by name. */
    ghost function Queued(): set<string>
      reads activeQueue.queue, backoffRetryQueue.queue
    {
      Active().Keys + Backoff().Keys
    }

    /** The two queues share no object. */
    ghost predicate Apart()
      reads activeQueue.queue, backoffRetryQueue.queue, activeQueue.queue.repr, backoffRetryQueue.queue.repr
    {
      && activeQueue.queue != backoffRetryQueue.queue
      && activeQueue.queue.repr !! backoffRetryQueue.queue.repr
      && activeQueue.queue.Valid() && backoffRetryQueue.queue.Valid()
    }

    /** No pod waits in both queues. */
    ghost predicate Valid()
      reads activeQueue.queue, backoffRetryQueue.queue, activeQueue.queue.repr, backoffRetryQueue.queue.repr
    {
      Apart() && Active().Keys !! Backoff().Keys
    }

    /** The newest copy ends up active, whatever copy was queued where. */
    method AddPod(pod: Pod, backoff: int, now: int)
      requires Valid()
      modifies activeQueue.queue, activeQueue.queue.repr, backoffRetryQueue.queue, backoffRetryQueue.queue.repr
      ensures Valid()
      ensures fresh(activeQueue.queue.repr - old(activeQueue.queue.repr))
              && backoffRetryQueue.queue.repr == old(backoffRetryQueue.queue.repr)
      ensures Active() == old(Active())[pod.name := Item(pod, now + backoff)]
      ensures Backoff() == old(Backoff()) - {pod.name}
    {
      hide PriorityQueue.Valid;
      var oldCopy := backoffRetryQueue.RemovePod(pod);
      if oldCopy != None {
        activeQueue.AddPod(pod, backoff, now);
      } else {
        var _ := activeQueue.RemovePod(pod);
        activeQueue.AddPod(pod, backoff, now);
      }
    }

    /** The name is in neither queue afterwards. */
    method RemovePod(pod: Pod) returns (removed: Option<Pod>)
      requires Valid()
      modifies activeQueue.queue, activeQueue.queue.repr, backoffRetryQueue.queue, backoffRetryQueue.queue.repr
      ensures Valid()
      ensures activeQueue.queue.repr == old(activeQueue.queue.repr)
              && backoffRetryQueue.queue.repr == old(backoffRetryQueue.queue.repr)
      ensures Active() == old(Active()) - {pod.name} && Backoff() == old(Backoff()) - {pod.name}
      ensures removed == if pod.name in old(Active()) then Some(old(Active())[pod.name].pod)
                         else if pod.name in old(Backoff()) then Some(old(Backoff())[pod.name].pod)
                         else None
    {
      hide PriorityQueue.Valid;
      var oldCopy := activeQueue.RemovePod(pod);
      if oldCopy != None {
        assert Backoff() == Backoff() - {pod.name};
        return oldCopy;
      }
      oldCopy := backoffRetryQueue.RemovePod(pod);
      if oldCopy != None {
        return oldCopy;
      }
      return None;
    }

    /** A pod already waiting for a retry keeps its copy and its time. */
    method BackoffPod(pod: Pod, delay: int, now: int)
      requires Valid()
      modifies activeQueue.queue, activeQueue.queue.repr, backoffRetryQueue.queue, backoffRetryQueue.queue.repr
      ensures Valid()
      ensures Active() == old(Active()) - {pod.name}
      ensures Backoff() == if pod.name in old(Backoff()) then old(Backoff())
                           else old(Backoff())[pod.name := Item(pod, now + delay)]
      ensures Queued() == old(Queued()) + {pod.name}
    {
      hide PriorityQueue.Valid;
      var _ := activeQueue.RemovePod(pod);
      backoffRetryQueue.AddPod(pod, delay, now);
    }

    /** One pass of the blocking `NextPod`: takes an active pod of least rank, if there is one. */
    method NextPod() returns (pod: Option<Pod>)
      requires Valid()
      modifies activeQueue.queue, activeQueue.queue.repr
      ensures Valid() && Backoff() == old(Backoff())
      ensures pod == None <==> old(Active()) == map[]
      ensures pod == None ==> Active() == old(Active())
      ensures pod.Some? ==>
                && pod.value.name in old(Active()) && old(Active())[pod.value.name].pod == pod.value
                && (forall n :: n in old(Active()) ==> Rank(old(Active())[pod.value.name]) <= Rank(old(Active())[n]))
                && Active() == old(Active()) - {pod.value.name}
    {
      hide PriorityQueue.Valid;
      var item := activeQueue.NextItem();
      if item == None {
        return None;
      }
      pod := Some(item.value.pod);
    }

    /** The adding loop of `ReviveBackoffItem`. */
    method AddPods(pods: seq<Pod>, now: int)
      requires Valid() && Names(pods) !! Backoff().Keys
      modifies activeQueue.queue, activeQueue.queue.repr, backoffRetryQueue.queue, backoffRetryQueue.queue.repr
      ensures Valid() && Backoff() == old(Backoff())
      ensures AddedTo(Active(), old(Active()), pods, now)
    {
      hide PriorityQueue.Valid, AddedTo;
      ghost var was := Active();
      assert AddedTo(Active(), was, [], now) by { Unadded(was, now); }
      for i := 0 to |pods|
        invariant Valid() && Backoff() == old(Backoff())
        invariant backoffRetryQueue.queue.repr == old(backoffRetryQueue.queue.repr)
        invariant fresh(activeQueue.queue.repr - old(activeQueue.queue.repr))
        invariant AddedTo(Active(), was, pods[..i], now)
      {
        var t := Now(now);
        AddedOneMore(Active(), was, pods[..i], now, pods[i], t);
        assert pods[..i + 1] == pods[..i] + [pods[i]];
        assert pods[i].name in Names(pods);
        AddPod(pods[i], 0, t);
      }
      assert pods[..|pods|] == pods;
    }

    /**
      Moves waiting pods that were due to the active queue. No name is gained or lost, no active pod is
      touched, and nothing that stays waiting is due by whole milliseconds.
     */
    method ReviveBackoffItem(now: int) returns (moved: seq<Pod>)
      requires Valid()
      modifies activeQueue.queue, activeQueue.queue.repr, backoffRetryQueue.queue, backoffRetryQueue.queue.repr
      ensures Valid() && Queued() == old(Queued())
      ensures Due(moved, old(Backoff()), now)
      ensures StillWaiting(Backoff(), old(Backoff()), Names(moved), now)
      ensures AddedTo(Active(), old(Active()), moved, now)
    {
      hide PriorityQueue.Valid;
      moved := backoffRetryQueue.TakeDue(now);
      AddPods(moved, now);
    }
  }

  lemma Unadded(was: Items, now: int)
    ensures AddedTo(was, was, [], now)
  {
    assert Names([]) == {};
  }
}
