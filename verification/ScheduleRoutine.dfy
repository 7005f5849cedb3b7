/**
  What the scheduler's routine does with a pod it has taken off the active queue.
 */
module ScheduleRoutine {
  import opened Common
  import Q = PriorityQueue
  import opened ScheduleQueue
  import opened Scheduler

  /**
    Offers the pod to the chunks and puts it up for a retry if none took it. A pod that is being deleted is
    taken off the queues when it is looked at, and put up for a retry all the same: the routine is done with
    a pod exactly if the pod went to a node.
   */
  method SchedulePolledPod(queue: PodScheduleQueue, copy: Q.Pod, pod: Pod, index: nat,
      chunks: seq<seq<SchedulableNode>>, evaluate: nat, how: SortingMethod, willing: set<SchedulableNode>, now: int,
      backoffDuration: int, ghost all: set<SchedulableNode>) returns (verdict: Verdict)
    requires queue.Valid() && copy.name == pod.name && index < |chunks| && evaluate > 0
    requires forall c, n :: 0 <= c < |chunks| && n in chunks[c] ==> n in all
    requires forall n :: n in all ==> NonNegative(n.occupied)
    modifies all, pod
    modifies queue.activeQueue.queue, queue.activeQueue.queue.repr
    modifies queue.backoffRetryQueue.queue, queue.backoffRetryQueue.queue.repr
    ensures queue.Valid()
    ensures AllEvaluated(chunks, evaluate) ==>
              (verdict == Scheduled <==>
               !pod.deleted && old(SomeChunkTakes(chunks, Requests(pod.containers), willing, all)))
    ensures verdict == Scheduled ==> queue.Active() == old(queue.Active()) && queue.Backoff() == old(queue.Backoff())
    ensures verdict != Scheduled ==> queue.Active() == old(queue.Active()) - {copy.name}
    ensures verdict != Scheduled ==>
              queue.Backoff() == if !pod.deleted && copy.name in old(queue.Backoff()) then old(queue.Backoff())
                                 else old(queue.Backoff())[copy.name := Q.Item(copy, now + backoffDuration)]
    ensures copy.name !in old(queue.Queued()) ==> (copy.name !in queue.Queued() <==> verdict == Scheduled)
    ensures pod.deleted ==> copy.name in queue.Backoff()
  {
    hide Q.PriorityQueue.Valid, SomeChunkTakes;
    var target: Option<SchedulableNode>, tried: seq<nat>;
    verdict, target, tried := TryChunks(pod, index, chunks, evaluate, how, willing, now, all);
    if verdict == PodIsDeleted {
      var removed := queue.RemovePod(copy);
    }
    if verdict != Scheduled {
      queue.BackoffPod(copy, backoffDuration, now);
    }
  }
}
