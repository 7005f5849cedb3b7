# Fornax Serverless: models and proofs

Fornax Serverless is a control plane for serverless applications and an agent that runs on every
node. This project models the parts of it that keep state and decide, and proves what they keep over
every run. Each module is a model of one component:

- `StatusWriter`: the asynchronous writer of application statuses, as interleaved steps of any number
  of submitters and one worker.
- `StoreMap`, `ObjList`, `Watch`, `MemoryStore`, `Resume`, `Paging`: the in-memory API store. A trie of
  nested mutable maps implements a flat map; a compacting list orders objects by revision; watchers turn
  the event stream into what their clients see; a client that comes back is served from the list; list
  calls come in pages.
- `PoolView`, `ApplicationPool`, `Autoscaler`, `ApplicationManager`: the pods and sessions of an
  application by state, the handlers of pod and session events, and the sync that assigns sessions to
  pods and scales pods. `PoolView` says what each pool operation means on one flat value;
  `ApplicationPool` does it on nested mutable maps.
- `PriorityQueue`, `ScheduleQueue`, `QueueSteps`: the binary heap with a name index, the scheduler's two
  queues, and the calls on them as interleaved steps under one lock per queue.
- `Scheduler`, `ScheduleRoutine`, `SchedulerSteps`: node accounting, filtering, binding with rollback, the
  rotation over chunks, what becomes of a pod that no chunk takes; and the same as interleaved steps of
  pods scheduled in parallel under one lock per chunk.
- `HostPorts`: the node's host-port allocator with rollback and recovery.
- `PodManager`, `NodeManager`, `NodeMonitor`, `Replica`: the core's pod cache and its event stream, full
  reports of nodes, the revision protocol, and how far the core is a replica of a node.
- `Common`: what several of them share.

Components that the source updates in place are classes whose methods are proved against
specifications on values; protocols are small-step machines. What the rest of the system answers
(remote calls, the pod manager during a sync, clock readings) is a parameter or arbitrary.

Results of a negative kind are stated exactly. The status worker can block itself for good if and only
if there are 500 submitters or more. A failed port allocation restores the table if and only if no
unserved container port came with a number in a used slot. The autoscaler settles if and only if its
water marks are ordered. A pod comes back from deletion if and only if a live session refers to it. A
watch that resumes from the object list catches up if and only if the search skipped nothing and every object
that left the view has a matching tombstone. Reading a list in pages loses the last object if and only if
the last two slots in use are both listed and the objects before it fill whole pages. A core is in step with
a node all along a run if and only if every message of the run meets the condition of its kind: nothing
dropped, nothing cached at a later version than a full state's, and no registration across changes of
running pods. A pod gets into both scheduling queues only if an add overlaps a backoff of it, or the put-back
of a pod that is not due for its retry, and two such calls in flight are enough. A remove leaves a pod queued
only if it was in both queues or a call that queues it is in flight.

The other way round, what each decision brings about is stated without naming how it is computed: the autoscaler
provides for every waiting session and rests within its marks, changes that come in order are all taken and bring
the core to the end of the node's history, requests add up over containers in any order, a pod reported running is
free for a session and gets one at the next sync, and a deletion once asked for stays asked for.

Where comments in the source and its code disagree, the code is followed: the scale-down lists pending
pods up to three times, an allocation that needs the last port slot fails, an allocation of no ports from an empty
table fails, and the table's rollback also gives back numbers that unserved ports came with. A list call whose
token names an object that is gone starts over from the first slot instead of searching. A pod found to be
deleted while it is scheduled is taken off the queues and then put up for a retry again.

Verify with `dafny verify dfyconfig.toml`.

## Model

| member | source | states |
|---|---|---|
| `StatusWriter.StatusChangeMap.AddStatusChange` | pkg/fornaxcore/application/application_status.go:48-58 | a name already waiting is replaced only on request, so a retry cannot displace a newer status; no other name changes |
| `StatusWriter.StatusChangeMap.GetAndRemoveStatusChangeSnapshot` | pkg/fornaxcore/application/application_status.go:60-72 | the snapshot is the whole map and the map is left empty, in whatever order it is ranged over |
| `StatusWriter.WakeupKept` | pkg/fornaxcore/application/application_status.go:107-132 | every step of any submitter or of the worker keeps it true that a non-empty map has a queued signal, or somebody about to signal or to look |
| `StatusWriter.PipelineKept` | pkg/fornaxcore/application/application_status.go:48-72 | every step keeps the latest status of each name in exactly the first of map, worker and storage that has the name, with strictly older copies only further on |
| `StatusWriter.NoLostWakeup` | pkg/fornaxcore/application/application_status.go:107-147 | in every reachable state, for any number of submitters, a non-empty map with no signal queued has a submitter or the worker on its way to it |
| `StatusWriter.NoLostUpdate` | pkg/fornaxcore/application/application_status.go:113-131 | in every reachable state the latest status submitted for a name is in the map, in flight, or already written |
| `StatusWriter.QuiescentIsSettled` | pkg/fornaxcore/application/application_status.go:107-147 | when nothing is running and no signal is queued, the map is empty and what was written last for each name is what was submitted last |
| `StatusWriter.SettledNeverGoesBack` | pkg/fornaxcore/application/application_status.go:114-131 | along every run the status written for a name is never replaced by an older one, however often writes are retried |
| `StatusWriter.BlockedForever` | pkg/fornaxcore/application/application_status.go:123-131 | a worker that waits to put its own retry signal into a full channel waits for ever, whatever the others do |
| `StatusWriter.BlockedReachable` | pkg/fornaxcore/application/application_status.go:85-131 | with 500 submitters or more that blocked state is reachable |
| `StatusWriter.DrainsIffFewSubmitters` | pkg/fornaxcore/application/application_status.go:85-147 | every reachable state can have its whole backlog written out if and only if there are fewer than 500 submitters |
| `StoreMap.PrefixFree` | pkg/store/inmemory/store_map.go:93-101 | no stored path lies on the way to another stored path or to a map |
| `StoreMap.VersionsGrow` | pkg/store/inmemory/store_map.go:180-251 | along every run of puts and deletes whose writes carry a version above the expected one, the version at a path strictly grows as long as the path is not deleted |
| `StoreMap.ObjStoreMap.Get` | pkg/store/inmemory/store_map.go:157-178 | the object returned is the one stored at a prefix of the key, no other prefix of the key is stored, and nothing is returned exactly when none is |
| `StoreMap.ObjStoreMap.Store` | pkg/store/inmemory/store_map.go:180-203 | the last step of a put: a map in its place and a version above the expected one are refused and change nothing; otherwise exactly one path of the flat map changes |
| `StoreMap.ObjStoreMap.PutObjMap` | pkg/store/inmemory/store_map.go:205-212 | hanging an empty map into a node adds one interior path and no object |
| `StoreMap.ObjStoreMap.Put` | pkg/store/inmemory/store_map.go:214-251 | each refusal happens for exactly its reason and then nothing changes, although maps are created on the way; an accepted put changes exactly its own path |
| `StoreMap.ObjStoreMap.Del` | pkg/store/inmemory/store_map.go:259-286 | a delete removes at most its own path, and fails exactly on an empty key, an object on the way, or a map at the end |
| `StoreMap.ObjStoreMap.CountItemsInMap` | pkg/store/inmemory/store_map.go:134-146 | the recursive count over nested maps is the number of stored paths at or below the node; at the root, the size of the flat map |
| `ObjList.CompactKeepsLive` | pkg/store/inmemory/store_map.go:56-85 | dropping dead slots keeps every live object, in order, and drops exactly as many dead ones as asked for or as there are |
| `ObjList.CompactSplits` | pkg/store/inmemory/store_map.go:61-75 | the dropped slots are the first dead ones: before a point only live objects stay, after it nothing changes |
| `ObjList.ShrinkToShorter` | pkg/store/inmemory/store_map.go:56-85 | shrinking to at most the current length drops the smaller of the difference and the number of dead slots, and adds nothing |
| `ObjList.ShrinkToLonger` | pkg/store/inmemory/store_map.go:56-60 | shrinking to more than the current length wraps around at 64 bits: every dead slot is dropped and the list is filled up to that length |
| `ObjList.CompactLeavesOne` | pkg/store/inmemory/store_map.go:56-85 | a compaction that drops all dead slots but one leaves at most one tombstone among the slots in use |
| `ObjList.List.Shrink` | pkg/store/inmemory/store_map.go:56-85 | the loop computes that compaction, gives every object its position as index, and finds the last slot in use |
| `ObjList.List.Grow` | pkg/store/inmemory/store_map.go:87-91 | the list gets longer, but the live objects, their order, their numbers and the last slot in use are as before |
| `Watch.ReplayFollowsOne` | pkg/store/inmemory/simple_memory_store_watcher.go:153-217 | for every event that can happen, applying what the watcher sends for it keeps a client equal to the watched part of the store |
| `Watch.SentAs` | pkg/store/inmemory/simple_memory_store_watcher.go:153-217 | which events are sent on and as what: a created object, and only it, as added; an updated one that matches, and only it, as modified; one that is deleted or stopped matching as deleted, in its old form |
| `Watch.ViewIs` | pkg/store/inmemory/simple_memory_store_watcher.go:153-165 | the watched part: keys that continue the prefix, or the key itself for a watch of one object, whose content matches |
| `Watch.ReplayFollows` | pkg/store/inmemory/simple_memory_store_watcher.go:153-217 | a client in step at any point of a well-formed event stream stays in step by replaying the watcher's output from there on |
| `Watch.ReplayFromStart` | pkg/store/inmemory/simple_memory_store_watcher.go:153-217 | replaying the whole output from nothing gives exactly the stored objects under the prefix that match the selector |
| `Watch.WatchCache.AddObjEvents` | pkg/store/inmemory/watch_cache.go:45-49 | whoever asks later, with any key and revision, gets what they would have got before, followed by the new event exactly if it is under the key and above the revision |
| `Watch.WatchCache.GetObjEventsAfterRev` | pkg/store/inmemory/watch_cache.go:32-43 | the loop selects, in order, the cached events under the key above the revision |
| `Watch.ResumeAtRevision` | pkg/store/inmemory/watch_cache.go:32-49 | the view at a revision, brought up to date with the cached events after it, is the current view |
| `MemoryStore.AtInjective` | pkg/store/inmemory/simple_memory_store.go:166-216 | different keys have different places in the trie, since splitting a key at slashes can be undone |
| `MemoryStore.AllButCurrent` | pkg/store/inmemory/simple_memory_store.go:131-142 | in a list that agrees with the trie, the slots that can be dropped are all but as many as there are stored objects |
| `MemoryStore.Store.ReserveRevAndSlot` | pkg/store/inmemory/simple_memory_store.go:808-817 | the next revision and an empty slot after all slots in use, with the list grown in time |
| `MemoryStore.Store.Create` | pkg/store/inmemory/simple_memory_store.go:166-216 | creation fails exactly when an object is stored at the key or on the way to it, or a map is there; otherwise the key, and only it, is added to what the event stream amounts to, it takes the next revision and the next slot of the list while all other slots are as before, and trie, list and stream still agree |
| `MemoryStore.Store.Update` | pkg/store/inmemory/simple_memory_store.go:485-566 | an accepted update replaces the object under the key, and only it, at a new revision, and reports the object it replaced; it takes the next slot of the list, the slot of the object it replaced is emptied, and all others are as before; trie, list and stream still agree |
| `MemoryStore.Store.Delete` | pkg/store/inmemory/simple_memory_store.go:221-293 | an accepted delete removes the key, and only it, leaves a tombstone at a new revision, and reports what was stored; the tombstone takes the next slot of the list, the slot of the object is emptied, and all others are as before; trie, list and stream still agree |
| `MemoryStore.Store.HouseKeeping` | pkg/store/inmemory/simple_memory_store.go:131-142 | compaction loses no stored object, changes no agreement, reaches exactly the intended length when it happens, and then leaves at most one tombstone |
| `MemoryStore.Store.GetList` | pkg/store/inmemory/simple_memory_store.go:412-451 | a full list call returns each object of the watcher's view of the event stream once, by rising version, and nothing else |
| `Paging.StartingIndex` | pkg/store/inmemory/simple_memory_store.go:363-405 | where a page starts: at the slot of the object that the token names while it is unchanged, at the search result if it was written again, at the beginning if it is gone |
| `Paging.GetPage` | pkg/store/inmemory/simple_memory_store.go:407-481 | a page is the first listed objects from there on, as many as the limit allows, and comes with a token exactly if it was filled before the last slot but one |
| `Paging.PickedAreListed` | pkg/store/inmemory/simple_memory_store.go:425-451 | the slots that a page picks from are exactly the listed ones, each once and in order |
| `Paging.NextPage` | pkg/store/inmemory/simple_memory_store.go:366-397 | what the page after a full one picks from is exactly what was picked beyond it |
| `Paging.PagesExactlyWhen` | pkg/store/inmemory/simple_memory_store.go:425-459 | all pages together are the listed objects, without the last of them if and only if the last two slots in use are both listed and the objects before the last one fill whole pages |
| `Paging.PagesMeetView` | pkg/store/inmemory/simple_memory_store.go:329-481 | reading all pages gives every object of the view of the event stream once, by rising version, if and only if that is not so; otherwise every object but the newest |
| `Paging.PagesOfOneLose` | pkg/store/inmemory/simple_memory_store.go:452-459 | with pages of one object the last one is lost if and only if the last two slots in use are both listed |
| `Paging.ReadPages` | pkg/store/inmemory/simple_memory_store.go:329-481 | a client that asks for page after page of an unchanging store, with the tokens it is given, ends with exactly that |
| `Paging.SecondIsLost` | pkg/store/inmemory/simple_memory_store.go:452-459 | a store that can be reached: new, with two objects created and read one at a time; the second is in the view and is never seen |
| `Paging.PageAgain` | pkg/store/inmemory/simple_memory_store.go:432-459 | with the match that includes the given revision a page starts with the object of the token again, and the same token comes back, so that the client gets no further, if and only if pages have one object and there is more to come |
| `Paging.PagesAgainExactlyWhen` | pkg/store/inmemory/simple_memory_store.go:432-459 | with that match and pages of two objects or more, all pages without the objects they repeat are the listed objects, without the last of them if and only if the last two slots in use are both listed and the objects before these two fill whole pages of one object less |
| `Resume.GetObjEventsAfterRev` | pkg/store/inmemory/simple_memory_store.go:717-778 | the loop makes up the events from the slots at and after the search result, with the given revision or without it as the version match says |
| `Resume.BinarySearchInObjList` | pkg/store/inmemory/simple_memory_store.go:780-791 | the loop computes the halving search that takes an empty slot for a small version |
| `Resume.BacklogIs` | pkg/store/inmemory/simple_memory_store.go:730-778 | exactly the slots from the search result on, under the key and of such a version, give an event: objects as created, tombstones as deleted |
| `Resume.SkippedIff` | pkg/store/inmemory/simple_memory_store.go:780-791 | in a list ordered by version, with any empty slots, the search starts after a slot it should find if and only if one of its probes falls on an empty slot beyond that one |
| `Resume.NoGapNoSkip` | pkg/store/inmemory/simple_memory_store.go:780-791 | a stretch without empty slots skips nothing |
| `Resume.LowerHalfDecides` | pkg/store/inmemory/simple_memory_store.go:780-791 | a list without gaps up to its middle skips nothing for a client that is not past the version in the middle |
| `Resume.LastMade` | pkg/store/inmemory/simple_memory_store.go:730-778 | the last made-up event about a key is its object's, if that gives one, otherwise a tombstone's |
| `Resume.ResumesExactlyWhen` | pkg/store/inmemory/simple_memory_store.go:717-778 | wherever the search starts, a client that resumes at a revision catches up if and only if no changed object that it watches was skipped, and every object that left its view has a tombstone, neither compacted away nor skipped, that matches its selector |
| `Resume.SearchedExactlyWhen` | pkg/store/inmemory/simple_memory_store.go:717-791 | the same with the store's own search, as a condition on the slots of the list alone |
| `Resume.HalfEmptyListTellsNothing` | pkg/store/inmemory/simple_memory_store.go:780-791 | while the upper half of the list is empty, as in a young store, a client that resumes is told nothing at all |
| `Resume.YoungStoreExactlyWhen` | pkg/store/inmemory/simple_memory_store.go:717-791 | while only the lower half of the list is in use, a client catches up if and only if it had nothing to catch up with |
| `Resume.ClientLeftBehind` | pkg/store/inmemory/simple_memory_store.go:717-791 | a store that can be reached: new, with one object created; a client in step before that is told nothing and stays behind |
| `Resume.OverlapExactlyWhen` | pkg/store/inmemory/simple_memory_store.go:693-715 | a watcher is registered before its backlog is read and may get events twice: its client ends in step if and only if each key has a live event or was caught up by the backlog |
| `PoolView.NothingIsStarting` | pkg/util/application.go:37-62 | which state a session is filed under, by its status and deletion: no session is ever filed as starting, and only terminal sessions that are not deleted are filed nowhere |
| `PoolView.ApplyKeepsInv` | pkg/fornaxcore/application/application_pool.go:81-130 | every pool call that handlers make keeps it true that a pod that is not being deleted is allocated exactly if sessions are bound to it |
| `PoolView.RunKeepsInv` | pkg/fornaxcore/application/application_pool.go:81-332 | over every run of such calls |
| `PoolView.NeverPendingAgain` | pkg/fornaxcore/application/application_pool.go:81-96 | no call takes a pod back to pending |
| `PoolView.PodTakesState` | pkg/fornaxcore/application/application_pool.go:98-122 | a pod that is free to change takes the state and the sessions it is given and keeps its own sessions; no other pod changes |
| `PoolView.SessionIsFiled` | pkg/fornaxcore/application/application_pool.go:268-304 | a session is on file as it is, under its state, and its pod is allocated to it; nothing else changes |
| `PoolView.SessionLeaves` | pkg/fornaxcore/application/application_pool.go:306-332 | a session that leaves is off its pod, which is free exactly if it was allocated to that session alone; nothing else changes |
| `PoolView.UpdateFiles` | pkg/fornaxcore/application/application_pool.go:377-386 | an update of a session removes it from the pool and its pod if it ended, and otherwise files it with the new stamp and binds it |
| `PoolView.TimesOutAfter` | pkg/fornaxcore/application/application_pool.go:338-372 | a session times out once more than its own number of seconds, or ten, have passed since its stamp |
| `PoolView.DeletionRevertedIff` | pkg/fornaxcore/application/application_pool.go:268-304 | a pod comes back from deletion if and only if a session that is not terminal, or is itself deleted, is filed with a reference to it |
| `PoolView.DeletionReverted` | pkg/fornaxcore/application/application_pool.go:268-304 | an instance: a pod is added, marked for deletion, and allocated again by a session that refers to it |
| `PoolView.CountsAddUp` | pkg/fornaxcore/application/application_pool.go:36-47 | the four counts of the summary add up to the number of distinct pods |
| `ApplicationPool.Pool.GetPod` | pkg/fornaxcore/application/application_pool.go:65-79 | the search through the state maps finds the pod's one object, or nothing exactly if no map has it |
| `ApplicationPool.Pool.AddOrUpdatePod` | pkg/fornaxcore/application/application_pool.go:81-96 | on nested maps and shared pods, exactly the flat update: deletion is not reverted, no pod goes back to pending, and every pod stays in exactly the map of its state |
| `ApplicationPool.Pool.PutPodNoLock` | pkg/fornaxcore/application/application_pool.go:98-122 | the pod ends up in the map of the new state only, with its sessions and the new ones |
| `ApplicationPool.Pool.DeletePod` | pkg/fornaxcore/application/application_pool.go:124-130 | the pod is in no map afterwards, and no other pod is touched |
| `ApplicationPool.Pool.GetSomeIdlePods` | pkg/fornaxcore/application/application_pool.go:132-143 | distinct idle pods, at most as many as asked for, and fewer only if there are no more |
| `ApplicationPool.Pool.GetPodSessions` | pkg/fornaxcore/application/application_pool.go:49-63 | exactly the filed sessions among those bound to the pod |
| `ApplicationPool.Pool.PodList` | pkg/fornaxcore/application/application_pool.go:174-184 | every pod, once |
| `ApplicationPool.Pool.SessionList` | pkg/fornaxcore/application/application_pool.go:204-214 | every filed session, and nothing else |
| `ApplicationPool.Pool.AddSession` | pkg/fornaxcore/application/application_pool.go:268-304 | a session is in exactly the map of its state and its pod is allocated to it; a terminal one is removed instead |
| `ApplicationPool.Pool.DeleteSession` | pkg/fornaxcore/application/application_pool.go:306-332 | the session is in no map, it is off its pod, and an allocated pod without sessions is idle, in one step |
| `ApplicationPool.Pool.SplitByTimeout` | pkg/fornaxcore/application/application_pool.go:338-372 | each filed session of the state is listed once, on the side on which its own or the default timeout puts it |
| `ApplicationPool.Pool.UpdateSessionPool` | pkg/fornaxcore/application/application_pool.go:377-386 | terminal sessions are removed and all others filed with a fresh time stamp |
| `ApplicationPool.Pool.SummaryPodTotal` | pkg/fornaxcore/application/application_pool.go:36-47 | the total of the summary is the number of distinct pods |
| `Autoscaler.NeverNegative` | pkg/fornaxcore/application/application_manager.go:438-481 | the wanted number of unoccupied pods is never negative |
| `Autoscaler.TotalInBounds` | pkg/fornaxcore/application/application_manager.go:469-481 | while not all allowed pods are occupied, occupied and wanted pods together stay between minimum and maximum |
| `Autoscaler.SaturatedLeavesAlone` | pkg/fornaxcore/application/application_manager.go:469-481 | once all allowed pods are occupied, unoccupied pods are left alone or none is wanted |
| `Autoscaler.TargetIsNearest` | pkg/fornaxcore/application/application_manager.go:438-481 | the target is the number of unoccupied pods that leaves, beside one for each waiting session, between the low and the high mark of them to spare, and that takes the fewest pods to get to; at a bound, that number lies at or beyond the bound |
| `Autoscaler.TargetServesSessions` | pkg/fornaxcore/application/application_manager.go:441-481 | every waiting session and the low mark are provided for unless the maximum is reached, the high mark is kept unless the minimum is needed, and a number within marks and bounds is left alone |
| `Autoscaler.TargetIsStable` | pkg/fornaxcore/application/application_manager.go:438-481 | anywhere between the current number and the target, the target is the same |
| `Autoscaler.SettlesIffMarksOrdered` | pkg/fornaxcore/application/application_manager.go:438-453 | the target of the target is itself, for every load and all bounds, if and only if the low water mark is at most the high one |
| `Autoscaler.NoOvershoot` | pkg/fornaxcore/application/application_manager.go:362-383 | a run of syncs stays between where it started and the target, which does not move |
| `Autoscaler.RunReachesTarget` | pkg/fornaxcore/application/application_pod.go:402-457 | a run of syncs that each move between one pod and a burst reaches the target after at most as many syncs as pods are missing or in excess, and stays there |
| `Autoscaler.RestsWithinMarks` | pkg/fornaxcore/application/application_manager.go:362-383 | a run of syncs comes to rest with unoccupied minus waiting between the marks, or at the bound that keeps it from them |
| `Autoscaler.FullRun` | pkg/fornaxcore/application/application_pod.go:402-457 | syncs in which nothing fails come closer by the burst each time, which is two pods if the policy names none |
| `ApplicationManager.DeleteApplicationPod` | pkg/fornaxcore/application/application_pod.go:162-192 | the pod is marked, or gone if the pod manager does not have it, unless it was marked before and its time is not up; the pod manager is asked exactly otherwise; no other pod changes |
| `ApplicationManager.DeleteApplicationSession` | pkg/fornaxcore/application/application_session.go:241-276 | what closing does in each state of the session; only a session that is not open leaves the pool, and pods at most lose that session |
| `ApplicationManager.ClosedMeans` | pkg/fornaxcore/application/application_session.go:241-276 | what becomes of a session on file and of its pod: an open one is marked closing, or closed if its pod is not known; a pending one times out; one that is not open leaves the pool and its pod; every other session is as before |
| `ApplicationManager.DeleteSessions` | pkg/fornaxcore/application/application_session.go:310-337 | every listed session is dealt with by its status, all others are as they were and stay on their pods, and if all went well none that was not open is left |
| `ApplicationManager.HandlePodAddUpdateFromNode` | pkg/fornaxcore/application/application_pod.go:84-128 | a pod neither deleting nor allocated ends idle with no session if it runs without a session label, allocated to exactly the sessions of its label if it has one, pending if it is pending and was not known, and as it was if it ended; an allocated one is left alone; a deleting one stays so, and its termination is asked for again exactly if its time is up; every other pod and every session is as before |
| `ApplicationManager.HandlePodDeleteFromNode` | pkg/fornaxcore/application/application_pod.go:131-160 | the pod is forgotten, every session bound to it is dealt with by its status, every other session is as before, and pods at most lose those sessions |
| `ApplicationManager.OnSessionAdd` | pkg/fornaxcore/application/application_session.go:88-107 | a session that is new and terminal, or deleted before it was known, changes nothing |
| `ApplicationManager.OnSessionUpdate` | pkg/fornaxcore/application/application_session.go:112-130 | an unknown terminal session changes nothing; any other is filed again |
| `ApplicationManager.OnSessionDelete` | pkg/fornaxcore/application/application_session.go:134-154 | the pool's own copy is marked deleted and filed again; an unknown one changes nothing |
| `ApplicationManager.SortSorts` | pkg/fornaxcore/application/application_session.go:156-170 | sorting by creation time gives a sorted permutation |
| `ApplicationManager.BindEffect` | pkg/fornaxcore/application/application_session.go:279-304 | binding takes an idle pod to allocated with exactly that session, files the session as running on it, and changes nothing else |
| `ApplicationManager.BindThenLeave` | pkg/fornaxcore/application/application_session.go:279-304 | a session that was bound and then leaves gives its pod back as it was |
| `ApplicationManager.BindAllEffect` | pkg/fornaxcore/application/application_session.go:180-212 | a whole pass does this for each of its pairs and for nothing else |
| `ApplicationManager.BindSessionToPod` | pkg/fornaxcore/application/application_session.go:279-304 | the status and the pod are written into the session on file before the pod is asked; a refusal undoes both, so that the pool is exactly as it was; otherwise the session is on file as starting on the pod, with a new stamp |
| `ApplicationManager.AssignPendingSessions` | pkg/fornaxcore/application/application_session.go:189-212 | the sessions that get a pod are a prefix of the sorted list, paired in order with the pods that are known and willing |
| `ApplicationManager.PassCanBind` | pkg/fornaxcore/application/application_session.go:180-212 | the pass is injective: different sessions on different pods, all of them idle before |
| `ApplicationManager.PassRespectsAge` | pkg/fornaxcore/application/application_session.go:186-212 | no session left waiting is older than one that got a pod |
| `ApplicationManager.PassWastesNothing` | pkg/fornaxcore/application/application_session.go:180-212 | if all idle pods are willing, sessions are left waiting only when no idle pod is left |
| `ApplicationManager.EnoughPodsServeAll` | pkg/fornaxcore/application/application_session.go:180-212 | with as many idle pods as waiting sessions, all of them willing, the sessions that get a pod are exactly the waiting ones |
| `ApplicationManager.DeployApplicationSessions` | pkg/fornaxcore/application/application_session.go:179-236 | the pass in full: what it binds had waited, and is at the end on its pod, which is allocated to it alone; sessions that timed out or are to be deleted are dealt with by their status; if all went well no timed-out session is left |
| `ApplicationManager.ScaleDownSparesBound` | pkg/fornaxcore/application/application_pod.go:330-396 | whatever a scale-down marks or forgets has no session, and no allocated pod changes |
| `ApplicationManager.GetPodsToBeDelete` | pkg/fornaxcore/application/application_pod.go:330-396 | the first candidates in the order of cost, as many as asked for, or all of them if none is asked for; every one unoccupied; pending pods can repeat |
| `ApplicationManager.CheapestFirst` | pkg/fornaxcore/application/application_pod.go:330-396 | an idle pod is given up only after all pending ones, a pending one with a host only after those without, a running idle one only after those of unknown state |
| `ApplicationManager.DeletePods` | pkg/fornaxcore/application/application_pod.go:433-453 | exactly the pods of a prefix of the list are marked or forgotten: all of it, or up to and with the first failure, whose pod stays, marked |
| `ApplicationManager.CreatePods` | pkg/fornaxcore/application/application_pod.go:411-429 | exactly the pods that were created are added, pending, until the number is reached or the namespace goes away |
| `ApplicationManager.DeployApplicationPods` | pkg/fornaxcore/application/application_pod.go:402-457 | at most a burst of distinct pods is added or given up, never more than wanted, and some pod is given up if any can be |
| `ApplicationManager.PruneDeadPods` | pkg/fornaxcore/application/application_manager.go:411-436 | allocated and idle pods are left alone; pending pods that nobody knows are forgotten, overdue ones given up, all others left alone; the pod manager is asked to terminate exactly the overdue pods and the deleting ones whose time is up |
| `ApplicationManager.DeploymentIsSyncStep` | pkg/fornaxcore/application/application_pod.go:402-457 | a deployment of pods is a step of the autoscaler's run, or fails to move at all |
| `ApplicationManager.SyncApplication` | pkg/fornaxcore/application/application_manager.go:334-405 | no sync of an application that is not being deleted marks a pod with a session for deletion; each sync is a pass, whose sessions end up on their pods, followed by a step towards the target for the sessions still waiting, and pruning |
| `ApplicationManager.CleanupDeletedApplication` | pkg/fornaxcore/application/application_manager.go:308-329 | every session is dealt with by its status, and open sessions are all that is left if all went well; once there are none, every pod left is marked for deletion |
| `ApplicationManager.NewPodsServe` | pkg/fornaxcore/application/application_manager.go:334-405 | pods are created, reported running, and a sync follows: if all idle pods are willing, every waiting session ends up on a pod or every new pod on a session, and with as many new pods as waiting sessions exactly these get pods |
| `ApplicationManager.HandleEvents` | pkg/fornaxcore/application/application_manager.go:184-245 | after any sequence of pod events, session events and syncs, every pod and session is in exactly one map, the one of its state, and pods that are not being deleted are allocated exactly if sessions are bound to them |
| `PriorityQueue.RootIsFirst` | pkg/collection/priority_queue.go:46-48 | in heap order no item comes before the root |
| `PriorityQueue.EarlierFirst` | pkg/fornaxcore/podscheduler/schedule_queue.go:37-39 | an item asked for earlier comes first, up to a millisecond |
| `PriorityQueue.PriorityQueue.Swap` | pkg/collection/priority_queue.go:50-54 | items exchange places and each still knows its own; the name index is not touched |
| `PriorityQueue.PriorityQueue.Up` | pkg/collection/priority_queue.go:46-64 | the sift-up of container/heap restores heap order when only the way up from one place was wrong |
| `PriorityQueue.PriorityQueue.Down` | pkg/collection/priority_queue.go:46-54 | the sift-down of container/heap restores heap order, or reports that only the way up can still be wrong |
| `PriorityQueue.PriorityQueue.HeapPush` | pkg/fornaxcore/podscheduler/schedule_queue.go:51-63 | exactly the new item is added; heap order, places and name index hold |
| `PriorityQueue.PriorityQueue.HeapPop` | pkg/fornaxcore/podscheduler/schedule_queue.go:104-116 | an item of least request millisecond is taken, and nothing else |
| `PriorityQueue.PriorityQueue.HeapRemove` | pkg/fornaxcore/podscheduler/schedule_queue.go:66-74 | exactly the item at the place is taken, wherever it is in the heap |
| `PriorityQueue.PriorityQueue.Pop` | pkg/collection/priority_queue.go:75-87 | the last item leaves the array and the name index together |
| `PriorityQueue.PriorityQueue.Get` | pkg/collection/priority_queue.go:89-95 | a name is found exactly if it is queued, at its current place |
| `PriorityQueue.PriorityQueue.Peak` | pkg/collection/priority_queue.go:66-73 | nothing is returned exactly if the queue is empty; otherwise the item in the last place, not the first |
| `ScheduleQueue.SchedulePriorityQueue.AddPod` | pkg/fornaxcore/podscheduler/schedule_queue.go:51-63 | a copy already queued under the name is kept, with its time |
| `ScheduleQueue.SchedulePriorityQueue.RemovePod` | pkg/fornaxcore/podscheduler/schedule_queue.go:66-74 | the name, and only it, leaves the queue, and the queued copy is returned |
| `ScheduleQueue.SchedulePriorityQueue.NextItem` | pkg/fornaxcore/podscheduler/schedule_queue.go:104-116 | an item of least request millisecond, or none exactly if there is none |
| `ScheduleQueue.SchedulePriorityQueue.TakeDue` | pkg/fornaxcore/podscheduler/schedule_queue.go:138-153 | only due pods are taken, and no pod that stays has a request millisecond before now's |
| `ScheduleQueue.PodScheduleQueue.AddPod` | pkg/fornaxcore/podscheduler/schedule_queue.go:189-201 | the newest copy is active, whatever copy was queued where, and the two queues share no name |
| `ScheduleQueue.PodScheduleQueue.RemovePod` | pkg/fornaxcore/podscheduler/schedule_queue.go:204-214 | with the queues apart, the name is in neither afterwards, although the second queue is skipped when the first had it |
| `ScheduleQueue.PodScheduleQueue.BackoffPod` | pkg/fornaxcore/podscheduler/schedule_queue.go:183-186 | the queued names are as before, with the pod's; a pod that waits already keeps its copy and time |
| `ScheduleQueue.PodScheduleQueue.NextPod` | pkg/fornaxcore/podscheduler/schedule_queue.go:165-180 | an active pod of least request millisecond is taken, and the waiting pods are untouched |
| `ScheduleQueue.PodScheduleQueue.ReviveBackoffItem` | pkg/fornaxcore/podscheduler/schedule_queue.go:138-158 | no name is gained or lost, every pod moved was due, none that stays is due by whole milliseconds, no pod that stays gets an earlier time, and active pods are untouched |
| `QueueSteps.StepStaysApart` | pkg/fornaxcore/podscheduler/schedule_queue.go:138-214 | each step of any call, under the lock of one queue, keeps the queues apart unless an add about to activate a pod overlaps a backoff, or the put-back of a pod not due yet, about to queue it for a retry |
| `QueueSteps.NeverShared` | pkg/fornaxcore/podscheduler/schedule_queue.go:138-214 | along every run of interleaved calls without such an overlap no pod is ever in both queues |
| `QueueSteps.SharedExactlyWhen` | pkg/fornaxcore/podscheduler/schedule_queue.go:183-201 | the calls in flight can put a pod into both queues if and only if an add and a backoff, or put-back, of the same pod are among them |
| `QueueSteps.AddQueues` | pkg/fornaxcore/podscheduler/schedule_queue.go:189-201 | an add by itself leaves the pod on the active queue only |
| `QueueSteps.BackoffQueues` | pkg/fornaxcore/podscheduler/schedule_queue.go:183-186 | a backoff by itself leaves the pod on the retry queue only |
| `QueueSteps.RemoveTakesOff` | pkg/fornaxcore/podscheduler/schedule_queue.go:204-214 | a remove by itself takes the pod off both queues if and only if it was not in both; otherwise the copy for the retry stays |
| `QueueSteps.RemoveExactlyWhen` | pkg/fornaxcore/podscheduler/schedule_queue.go:138-214 | among other calls in flight, a remove can end with the pod still queued if and only if the pod is in both queues, or an add, a backoff or a put-back of it is in flight |
| `QueueSteps.NoWakeUpLost` | pkg/fornaxcore/podscheduler/schedule_queue.go:126-201 | in every interleaving, while the scheduler sleeps with something to do a call is about to wake it; with no call in flight it sleeps only while there is nothing to do |
| `HostPorts.HostPortRange.DeallocateHostPort` | pkg/nodeagent/node/node_port_manager.go:57-71 | the loop gives the ports back one by one, skipping those that are not set |
| `HostPorts.HostPortRange.AllocateHostPort` | pkg/nodeagent/node/node_port_manager.go:75-114 | success if and only if there is a slot and ten times the free slots other than the last are enough; on failure the table is restored exactly if and only if no container port that was not served came with a number in a used slot; ports keep the numbers they were given |
| `HostPorts.HostPortRange.InitRangeWithContainerPorts` | pkg/nodeagent/node/node_port_manager.go:118-146 | recovery counts in every port that is set, making the table longer where needed |
| `HostPorts.RecoveredSlot` | pkg/nodeagent/node/node_port_manager.go:131-143 | a recovered port is counted in its slot, whose next number is the greater of the port and its own; no other slot changes |
| `HostPorts.RecoveredLength` | pkg/nodeagent/node/node_port_manager.go:125-130 | a port beyond the table makes the table reach ten slots from the port's on; otherwise the length stays |
| `HostPorts.PortsCount` | pkg/nodeagent/node/node_port_manager.go:79-99 | a request gets as many ports as it asks for or ten for each free slot, whichever is less |
| `HostPorts.PortsRise` | pkg/nodeagent/node/node_port_manager.go:79-99 | the ports handed out strictly rise and lie in the range of the table |
| `HostPorts.PortsWereFree` | pkg/nodeagent/node/node_port_manager.go:83-97 | every port handed out lies in a slot that was free |
| `HostPorts.LowestFirst` | pkg/nodeagent/node/node_port_manager.go:79-99 | slots are used from the lowest up: one is begun only when all free ones below it are handed out in full |
| `HostPorts.UndoAll` | pkg/nodeagent/node/node_port_manager.go:102-112 | giving back everything an attempt handed out restores the table exactly |
| `HostPorts.FreeAllHarmless` | pkg/nodeagent/node/node_port_manager.go:57-71 | giving ports back changes nothing if and only if each is not set or lies in a free slot |
| `HostPorts.FailureFreesSlot` | pkg/nodeagent/node/node_port_manager.go:101-113 | an instance of a failed attempt that does not restore the table: it frees the slot of a port that was found in use |
| `HostPorts.FreeAllCounted` | pkg/nodeagent/node/node_port_manager.go:57-71 | giving back distinct live ports keeps each slot's counter equal to the number of live ports in its range |
| `HostPorts.RecoverAllCounted` | pkg/nodeagent/node/node_port_manager.go:118-146 | so does recovering distinct unknown ports |
| `HostPorts.PortsCounted` | pkg/nodeagent/node/node_port_manager.go:75-99 | so does handing out ports, and none of them was live |
| `HostPorts.RunCounted` | pkg/nodeagent/node/node_port_manager.go:57-146 | so does every run of recoveries, allocations and deallocations |
| `HostPorts.NeverReused` | pkg/nodeagent/node/node_port_manager.go:57-146 | after any such run, a slot is free exactly if its range has no live port, and the next allocation's ports are in range, distinct, and not live |
| `PodManager.PodManager.CreatePodAndSendEvent` | pkg/fornaxcore/pod/pod_manager.go:243-257 | watchers keep up with the cache if and only if the new pod is not terminated already |
| `PodManager.PodManager.AddOrUpdatePod` | pkg/fornaxcore/pod/pod_manager.go:267-310 | only a newer report changes a cached pod: it then has the phase, version and node of the report and keeps a deletion time and grace period it had; a terminated one leaves the cache; its node is told to terminate it again exactly if it was asked to end and still runs, and the update is dropped exactly if that call fails; the schedule queue is asked for exactly the pending pods without a node; folding the events still gives the cache |
| `PodManager.PodManager.DeletePod` | pkg/fornaxcore/pod/pod_manager.go:148-179 | a running or unknown pod is refused, any other leaves the cache with one event and leaves the schedule queue, and folding the events still gives the cache |
| `PodManager.PodManager.TerminatePod` | pkg/fornaxcore/pod/pod_manager.go:187-224 | a pod without a node is deleted unless it runs; any other stays with the time of the first request, even if the call to its node fails; its node is called exactly if it has one and has not ended; it leaves the schedule queue; folding the events still gives the cache |
| `PodManager.MarkStays` | pkg/util/meta.go:74-90 | whatever is reported, asked for or removed, a pod marked for deletion keeps its time and grace period, and its version does not fall, until it leaves the cache |
| `PodManager.AskedUntilGone` | pkg/fornaxcore/pod/pod_manager.go:267-310 | along every run, once a pod was asked to end, each newer report of it from a node that does not say it ended asks the node again, and the report is taken only if the node takes the call |
| `PodManager.VersionsRise` | pkg/fornaxcore/pod/pod_manager.go:281-303 | in every event stream the pod manager sends, two updates of a pod with no removal between them carry strictly rising versions, and only the first can be a creation |
| `NodeManager.NodeManager.UpdatePodState` | pkg/fornaxcore/node/node_manager.go:91-118 | a report of an unknown node is out of order; a stale one changes nothing; a newer one is cached with its phase, version and node, or leaves the cache if it ended, and becomes known unless the update was dropped; its sessions are passed on, one by one in order, exactly if it is applied |
| `NodeManager.NodeManager.SyncNodePodStates` | pkg/fornaxcore/node/node_manager.go:120-173 | the two loops of a full report do what the specification of a report says, to the cache and to the sessions passed on, for that node only |
| `NodeManager.NodeManager.UpdateSessionState` | pkg/fornaxcore/node/node_manager.go:58-67 | the session manager is told of a session exactly if its pod is cached |
| `NodeManager.OmittedAreGone` | pkg/fornaxcore/node/node_manager.go:148-168 | after a full report no pod is cached that was known and is left out |
| `NodeManager.ReportedAreHeld` | pkg/fornaxcore/node/node_manager.go:132-146 | every running pod of the report is cached, unless the same report later says it terminated |
| `NodeManager.StrangersAreSpared` | pkg/fornaxcore/node/node_manager.go:148-168 | a pod that the node neither was known to have nor reports is not touched |
| `NodeManager.TwoReportsSettle` | pkg/fornaxcore/node/node_manager.go:120-173 | two reports of the same pods in a row leave nothing known that they do not name |
| `NodeManager.OneReportDoesNotSettle` | pkg/fornaxcore/node/node_manager.go:164-172 | an instance of its failing: a pod that the report leaves out is deleted but stays known |
| `NodeManager.OneReportSettlesIff` | pkg/fornaxcore/node/node_manager.go:120-173 | one report leaves nothing known that it does not name if and only if every known pod it leaves out was gone from the cache before |
| `NodeMonitor.GapFree` | pkg/fornaxcore/nodemonitor/node_monitor.go:260-302 | whatever sequence of messages is delivered, every revision between the last accepted registration or full state and the core's revision was taken as an incremental message after it |
| `NodeMonitor.StuckAfterGap` | pkg/fornaxcore/nodemonitor/node_monitor.go:260-273 | while the next revision does not come, and no registration or full state does, nothing but the current revision is taken and the revision stays |
| `NodeMonitor.IncrementalTaken` | pkg/fornaxcore/nodemonitor/node_monitor.go:260-273 | after any messages, an incremental one is taken if and only if its revision is the current one or the next, and then becomes the current one |
| `NodeMonitor.InOrderTaken` | pkg/fornaxcore/nodemonitor/node_monitor.go:260-273 | after any messages, changes that come in order with none missing are all taken |
| `NodeMonitor.SessionIsTaken` | pkg/fornaxcore/nodemonitor/node_monitor.go:116-302 | a registration, a full state and the changes after it, in order, are all taken whatever came before |
| `NodeMonitor.GoesBackOnly` | pkg/fornaxcore/nodemonitor/node_monitor.go:123-134 | the revision goes back only by a registration, or by a full state of revision 1 |
| `NodeMonitor.NodeMonitor.OnRegistry` | pkg/fornaxcore/nodemonitor/node_monitor.go:116-134 | the revision is set, the node exists, its pods and every other node are as before |
| `NodeMonitor.NodeMonitor.OnPodStateUpdate` | pkg/fornaxcore/nodemonitor/node_monitor.go:222-258 | a message is in order if and only if the node is known and the revision is the current one or the next; one out of order changes nothing; one in order becomes the revision even if its pod's update is dropped |
| `NodeMonitor.NodeMonitor.OnSessionUpdate` | pkg/fornaxcore/nodemonitor/node_monitor.go:78-112 | a message is in order if and only if the node is known and the revision is the current one or the next; one out of order changes nothing; one in order becomes the revision, and the session manager is told exactly if the pod is cached |
| `NodeMonitor.NodeMonitor.UpdateOrCreateNode` | pkg/fornaxcore/nodemonitor/node_monitor.go:275-302 | an older full state is ignored unless its revision is 1; any other is applied in full, also for a node not seen before |
| `Replica.VersionIsLast` | pkg/nodeagent/node/node_actor.go:172-211 | a pod's version on the node is the revision of its last change |
| `Replica.RunSane` | pkg/fornaxcore/nodemonitor/node_monitor.go:222-302 | after any sequence of messages cut from a node's history, lost, repeated or reordered, with any calls failing, every cached version of the node's pods is that of a running state the node reported |
| `Replica.FullStateHeals` | pkg/fornaxcore/node/node_manager.go:120-173 | at whatever revision the core is, a full state makes its pods of the node equal to the node's at the revision of the full state, if and only if no pod of it is cached at a later version and no update of it is dropped |
| `Replica.PodStateKeeps` | pkg/fornaxcore/nodemonitor/node_monitor.go:233-256 | taking the current or the next change keeps the core's pods of the node equal to the node's at that revision, if and only if it is not dropped |
| `Replica.CatchesUp` | pkg/fornaxcore/nodemonitor/node_monitor.go:222-302 | after any messages, also ones that made the revision go back, a full state no older than any of them is accepted and makes the core agree with the node, if and only if nothing in it is dropped |
| `Replica.DeliverInStepIff` | pkg/fornaxcore/nodemonitor/node_monitor.go:116-302 | what each kind of message must meet for a core in step to stay in step, necessary and sufficient: registrations, full states, late full states, pod changes |
| `Replica.StaysInStepIff` | pkg/fornaxcore/nodemonitor/node_monitor.go:116-302 | a core that agrees with a node agrees with it all along a run, whatever messages it has, if and only if each of them meets that condition |
| `Replica.FollowsHistory` | pkg/fornaxcore/nodemonitor/node_monitor.go:222-273 | a core in step that gets the changes that follow, in order and with no call failing, is in step all along and has the node's pods at the revision of the last of them |
| `Replica.CatchesUpToEnd` | pkg/fornaxcore/nodemonitor/node_monitor.go:222-302 | after any messages, a full state no older than any of them and then the rest of the history: the core has the node's pods at the end of the history |
| `Replica.SamePodsIff` | pkg/nodeagent/node/node_actor.go:172-211 | a node has the same pods at two revisions if and only if only pods changed in between that run at neither |
| `Replica.RegistrationBreaksStep` | pkg/fornaxcore/nodemonitor/node_monitor.go:116-134 | a registration keeps the core in step if and only if only pods changed between the two revisions that run at neither |
| `Replica.LateFirstStateBreaksStep` | pkg/fornaxcore/nodemonitor/node_monitor.go:288-292 | an instance: a first full state delivered again late takes the revision back but not the pod |
| `Replica.Receive` | pkg/fornaxcore/nodemonitor/node_monitor.go:78-302 | the core's handlers do to its revision and its pods what the protocol model says |
| `Scheduler.FitsStaysWithin` | pkg/fornaxcore/podscheduler/schedule_condition.go:59-100 | a pod admitted to a node it fits leaves the node below its capacity |
| `Scheduler.FitsExactly` | pkg/fornaxcore/podscheduler/schedule_condition.go:59-120 | a pod fits a node if and only if what is occupied together with its request, or the least that counts as one, stays strictly below the capacity, for CPU and memory |
| `Scheduler.AdmitReleaseRestores` | pkg/fornaxcore/podscheduler/schedule_node_pool.go:40-126 | releasing what was just admitted restores the node, in spite of clamping at zero |
| `Scheduler.SchedulableNode.AdmitPodOccupiedResourceList` | pkg/fornaxcore/podscheduler/schedule_node_pool.go:40-66 | occupancy grows by the request, and never ends below zero |
| `Scheduler.SchedulableNode.ReleasePodOccupiedResourceList` | pkg/fornaxcore/podscheduler/schedule_node_pool.go:100-126 | occupancy shrinks by the request, and never ends below zero |
| `Scheduler.SchedulableNode.GetAllocatableResources` | pkg/fornaxcore/podscheduler/schedule_node_pool.go:68-98 | never negative, and at least capacity minus occupancy |
| `Scheduler.GetPodResourceList` | pkg/util/pod.go:136-171 | the loop computes the requests of the containers, of which the three laws below are proved |
| `Scheduler.RequestsOne` | pkg/util/pod.go:136-149 | a single container counts with each request that is positive |
| `Scheduler.RequestsAddUp` | pkg/util/pod.go:136-149 | the requests of two lists of containers together are the sums of theirs |
| `Scheduler.RequestsInAnyOrder` | pkg/util/pod.go:136-149 | the order of the containers does not matter |
| `Scheduler.FilterNodes` | pkg/fornaxcore/podscheduler/pod_scheduler.go:200-218 | the candidates the pod fits, in order, up to the number to be evaluated, and all of them if there are fewer |
| `Scheduler.SortNodes` | pkg/fornaxcore/podscheduler/pod_scheduler.go:224-229 | a permutation in the order of the sorting method |
| `Scheduler.SortsFirst` | pkg/fornaxcore/podscheduler/pod_scheduler.go:61-79 | of two nodes that a pod fits, one sorts before the other if and only if it has at least as much memory left, or was not used later |
| `Scheduler.BindFirst` | pkg/fornaxcore/podscheduler/pod_scheduler.go:231-242 | the first willing node gets the pod and every node that refused is as before |
| `Scheduler.SchedulePod` | pkg/fornaxcore/podscheduler/pod_scheduler.go:188-246 | the exact reason of every failure; a failed attempt leaves every node's occupancy unchanged; a successful one changes one node, which fitted and stays within its capacity, and which sorts first among the willing ones |
| `Scheduler.InitializeChunkSchedulers` | pkg/fornaxcore/podscheduler/pod_scheduler.go:332-349 | as many chunks as needed, none larger than the number of nodes evaluated, each a sorted permutation of its slice of the nodes |
| `Scheduler.EachInOneChunk` | pkg/fornaxcore/podscheduler/pod_scheduler.go:332-349 | the chunks partition the nodes |
| `Scheduler.TurnsCoverAll` | pkg/fornaxcore/podscheduler/pod_scheduler.go:385-391 | from any starting position every chunk comes up, and comes up once |
| `Scheduler.TryChunks` | pkg/fornaxcore/podscheduler/pod_scheduler.go:379-396 | chunks are tried in turn, none twice; the pod goes to a node if and only if it is not deleted and some node of some chunk fits it and is willing, and otherwise is given up after all refused it, with every node's occupancy unchanged |
| `ScheduleRoutine.SchedulePolledPod` | pkg/fornaxcore/podscheduler/pod_scheduler.go:379-396 | a pod taken off the queue is out of the queues afterwards if and only if it went to a node: a deleted pod is removed and then put up for a retry again |
| `SchedulerSteps.AccountedKept` | pkg/fornaxcore/podscheduler/pod_scheduler.go:152-186 | in every interleaving of lock, look, admit, answer, roll back and finish, each node carries exactly the requests of the pods bound to it or asked for |
| `SchedulerSteps.NotOvercommittedKept` | pkg/fornaxcore/podscheduler/pod_scheduler.go:325-330 | every such step keeps every node within its capacity |
| `SchedulerSteps.ExclusiveKept` | pkg/fornaxcore/podscheduler/pod_scheduler.go:325-330 | no two routines hold the lock of one chunk |
| `SchedulerSteps.OthersPromised` | pkg/fornaxcore/podscheduler/pod_scheduler.go:188-246 | what another routine found to fit in its chunk still fits after the step |
| `SchedulerSteps.NeverOvercommitted` | pkg/fornaxcore/podscheduler/pod_scheduler.go:325-396 | after any interleaving of any number of routines and ending pods, a node carries exactly the requests of its pods, within its capacity |
| `SchedulerSteps.BindsExactlyWhen` | pkg/fornaxcore/podscheduler/pod_scheduler.go:188-246 | a waiting pod's routine, left to itself, can bind the pod to a node of a chunk whose lock is free if and only if the pod fits the node |
| `SchedulerSteps.LockIsGivenBack` | pkg/fornaxcore/podscheduler/pod_scheduler.go:325-330 | a routine that holds a lock can always go on by itself until it gives the lock back |

## Left out

- ApplicationManager.HandleEvents: handlers and syncs are atomic steps on one application's pool; a handler
  that reads a pod's state and updates the pool under separate locks can be interrupted in between, which
  is not modelled. Session objects are values in the pool, so changes through a shared pointer are modelled
  as explicit updates.
- ApplicationManager.BindSessionToPod: the session is the one on file when the pass starts, and access
  endpoints are not modelled.
- ApplicationManager.SyncApplication: the application status computed at the end of a sync, requeueing and
  the removal of an empty pool are not modelled.
- StatusWriter.DrainsIffFewSubmitters: a write that finds the application gone counts as written, and the
  retry loop inside one write is one step.
- Autoscaler.TargetIsStable: the idle-session-percent policy is not modelled; it compares a session count
  with a percentage.
- MemoryStore.Store.Update: stands for the guarded update and the replacing create alike; preconditions and
  update functions of callers are a verdict passed in, and the optimistic retry of a cached object is not
  modelled.
- MemoryStore.Store.GetList: a list call without limit, token and revision; the others are calls of
  `Paging.GetPage`.
- Paging.ReadPages: the match is the one without the given revision (`Paging.PagesAgainExactlyWhen` is about the
  other), and the store does not change between the pages; the encoding of tokens, unknown kinds of match and errors
  of malformed options are not modelled.
- Watch.ReplayFollows: stopping a watcher, its bounded channels and the variant that carries old objects
  are not modelled. The count of items under a missing path and the unused shrink of the watch cache are
  not modelled.
- PriorityQueue.PriorityQueue.HeapPush: the name must not be queued, which its only caller checks; the order
  is that of request times in milliseconds.
- ScheduleQueue.PodScheduleQueue.NextPod: one pass of the loop; waiting on the condition variable, stopping
  and calls that come in between are in `QueueSteps`.
- QueueSteps.NeverShared: queues are sets of names; which copy of a pod they hold and at what time is in
  `ScheduleQueue`.
- ScheduleRoutine.SchedulePolledPod: the removal of a deleted pod, repeated for every chunk, is one call.
- Scheduler.SchedulePod: storage is not modelled, since no storage condition is installed; the score of
  nodes and the random choice of a node are unused. The number of nodes to evaluate is at least one.
- SchedulerSteps.NeverOvercommitted: nodes and chunks do not change during a run, and pods that nodes report
  without the scheduler having placed them are not admitted.
- HostPorts.HostPortRange.AllocateHostPort: container ports are distinct objects, the starting port is
  positive, and 32-bit wrap-around of port numbers is not modelled; a number outside the table, on which
  the source stops with an index error, is excluded.
- PodManager.MarkStays: runs are of the pod manager's own calls; the application manager clears the time of a
  deletion that took too long before it asks again, which is not among them.
- PodManager.PodManager.AddOrUpdatePod: cached pods are values, so that a change through the pointer that a
  look-up returns is an explicit update; the schedule queue is known by the calls made to it.
- NodeManager.NodeManager.CreateNode: node specifications, address ranges, daemons and node events are not
  modelled, and what the session manager does with a session it is told of is not either.
- Replica.StaysInStepIff: agreement is about which pods run and at which version; the phase of a pod in
  transition is not compared. Other nodes, and changes to the cache by applications, do not occur in a run.
- The pod actor of the node agent, the mapping of container ports to pods, the session wrapper, remote
  calls, the container runtime, storage of the node's state, metrics and command line programs are not
  modelled.
