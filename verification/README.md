# The Qualcomm device utilities, modelled and proved

This project models the concurrent core of the GPS utility library and three smaller components of
the same device tree, and proves what each promises.

- **The timer service** (`gps/utils/LocTimer.cpp`, over `LocHeap.cpp`, `MsgTask.cpp`,
  `LocSharedLock.h`). `TimerProtocol` is a transition system: any number of clients that start, stop
  and destroy timers, the message thread that owns the two heaps, the poll thread, and the kernel
  timers with their place in the epoll set. Every region under a lock, every kernel call and every
  send or receive is a step of its own, and so are the read of `mClient` and the call of `stop()` in
  `LocTimerDelegate::expire`. `TimerLifetime`, `TimerCoverage` and `TimerAccounts` keep the
  invariant step by step, `TimerTheorems` states the results for every reachable state,
  `TimerRuns` those about what happens between two steps of a run,
  `TimerProgress` the results about runs to rest, and `TimerEarlyCallback` gives two runs that go
  wrong. `LocTimer` holds the classes themselves, with methods proved against the same functions
  that the transition system steps with. `Deadline` is the arithmetic of deadlines and ranks.
- **The heap** (`gps/utils/LocHeap.cpp`). `LocHeapSpec` is the heap as a value for any total
  preorder; `LocHeap` is the linked tree changed in place, each method proved to do exactly what the
  function does, with the same nodes at the same places except the one hung on or taken off.
- **The message queue** (`gps/utils/msg_q.c` over `linked_list.c`). `LinkedList` is the doubly
  linked list, `MsgQueue` the regions under the mutex and, above them, a step system of any number
  of senders and of receivers that are away, sleeping or woken.
- **The worker thread** (`gps/utils/LocThread.cpp`). `LocThread` interleaves, at every access to the
  delegate, the parent and the spawned thread.
- **The camera parameters** (`camera/CameraParameters.cpp`). `CameraParameters` with the printing and
  reading of numbers in `Numerals`.
- **The IPACM event dispatcher and command queue** (`data-ipa-cfg-mgr`). `EvtDispatcher`, `CmdQueue`.
- **The adapter registry** (`gps/core/LocApiBase.cpp`). `LocApiBase`.

## What the proofs found

- An Expire message pops its first timer without looking at the deadline
  (`gps/utils/LocTimer.cpp:367`), against the comment above it. If the timer that fired is stopped
  while the poll thread handles the event, the next timer is called back early, by any amount:
  `TimerEarlyCallback.StaleEventCallsBackEarly`. `TimerTheorems.ExpiryBatch` gives the exact
  condition: all popped timers are due if and only if the top was due when the message was taken.
- A client that stops and restarts its timer after `expire()` read `mClient` and before it calls
  `stop()` (lines 524-526) is called back early for the new timer:
  `TimerEarlyCallback.RestartCallsBackEarly`. `TimerTheorems.StopHitsPoppedTimer` gives the exact
  condition, over everything that can happen in between: `stop()` hits the popped timer if and only
  if the client made no call of `stop()` of its own from that read on, and hits another one if and
  only if it did and has called `start()` after the last of them. With both conditions met no
  callback comes before its deadline (`TimerRuns.CalledBackInTime`).
- Removing the last timer does not disarm the kernel timer: the branch of `updateSoonestTime` for an
  empty container (lines 288-294) is dead code (`TimerTheorems.NeverDisarmsEmpty`). What does hold is
  that no expiration is lost (`TimerTheorems.NoLostExpiry`).
- `LocThread.h:75-77` leaves the runnable to the client when `start()` returns false. If the thread
  ends before `create()` looks, `start()` returns false and the runnable is deleted already
  (`LocThread.StartFailsAfterTheThread`). `LocThread.FailedStart`: the runnable is the client's if
  and only if the thread was never created.
- The truncated rank of two deadlines is exact for any gap of seconds in [-2^31, 2^31) and is wrong
  at 2^31 (`Deadline.RankIsExact`).
- `parse_pair` accepts a pair followed by anything, so `parseSizesList` drops the pair before a
  foreign character, although it is well formed (`CameraParameters.JunkEndsTheList`). What it does
  keep of any string is the longest prefix of tokens that are one pair and nothing else
  (`CameraParameters.SizesOfTokens`).

## Model

| member | source | states |
|---|---|---|
| TimerTheorems.NoLostExpiry | gps/utils/LocTimer.cpp:281-381 | in every reachable state with the message thread idle and a timer in a container: its kernel timer is armed for exactly the top's deadline or has fired, with the fd polled; or the poll thread is handling its event; or an Expire message for it is queued |
| TimerCoverage.CoverOfStep | gps/utils/LocTimer.cpp:281-306 | the invariant behind it, also while the message thread is between two kernel calls or inside an Expire loop, is kept by every step of every thread |
| TimerTheorems.TopIsSoonestOfAll | gps/utils/LocTimer.cpp:271-306 | the timer that the kernel is armed for is no later than any other in the container |
| TimerTheorems.NeverDisarmsEmpty | gps/utils/LocTimer.cpp:285-304 | no kernel call that updateSoonestTime ever makes removes the poll or disarms the timer |
| TimerTheorems.DelegateLife | gps/utils/LocTimer.cpp:310-350 | a delegate gets exactly one Push message; a Remove message exactly if its timer is no longer set, then exactly one and after the Push; and it is freed exactly when that message has been run |
| TimerTheorems.NoDanglingReference | gps/utils/LocTimer.cpp:327-350 | no heap, queued message, LocTimer or local of the message thread refers to a freed delegate |
| TimerTheorems.FreedOnce | gps/utils/LocTimer.cpp:344-345 | a freed delegate stays freed and is never deleted again |
| TimerTheorems.ClientAndDelegateAgree | gps/utils/LocTimer.cpp:475-501 | mClient of a delegate is a client if and only if mTimer of that client is the delegate |
| TimerTheorems.SharedLockLife | gps/utils/LocSharedLock.h:42-57 | the reference count is the LocTimer, if alive, plus its delegates not yet freed; the lock is deleted exactly when there are none, and never while somebody may lock it |
| TimerTheorems.StartsConserved | gps/utils/LocTimer.cpp:520-580 | successful starts = stops by the client that returned true + callbacks made or about to be made + the timer set now |
| TimerRuns.StartSetsDeadline | gps/utils/LocTimer.cpp:475-482 | over every run from a start with no timer set: the new delegate is due exactly the timeout after the clock reading of the start, carried into the fields of a timespec, belongs to that client, and it and its Push message carry the container asked for, for good |
| TimerRuns.StartWhileSet | gps/utils/LocTimer.cpp:547-564 | a start changes nothing if and only if a timer is set |
| TimerRuns.CalledBackInTime | gps/utils/LocTimer.cpp:520-580 | from the start of a timer to its callback: if the top was due when the Expire message was taken and the client made no stop() between the read of mClient and the stop() of expire(), the callback comes no sooner than the timeout after the start |
| TimerTheorems.ExpiryBatch | gps/utils/LocTimer.cpp:360-390 | when the loop of an Expire message ends, whatever other threads did: the timers left are later than the clock reading of the message, every popped one after the first was due and in deadline order, none is lost or duplicated, and all popped ones were due if and only if the top was, in which case they are exactly the due ones |
| TimerRuns.ExpiryBatchOfRun | gps/utils/LocTimer.cpp:360-390 | the same over every run from the moment the Expire message is taken, in terms of the clock and the heap of that moment: whatever happens in between, no timer that was due then is left |
| TimerRuns.ExpireBegins | gps/utils/LocTimer.cpp:361-367 | the loop works with the clock at the moment its message is taken, and with the heap found there; an empty heap stays as it is |
| TimerTheorems.BatchIsWhole | gps/utils/LocTimer.cpp:367-372 | the interleaved loop pops what one undisturbed loop over the heap it found would pop |
| TimerTheorems.StopHitsPoppedTimer | gps/utils/LocTimer.cpp:520-532 | over every run from the read of mClient to the call of stop(): stop() hits the popped timer if and only if the client called no stop() in between; it hits a timer started since, or none at all, according to whether the client called start() after its last stop(); a callback follows exactly if one is hit; and the popped timer is due if the top was when the message was taken |
| TimerTheorems.RankIsEarlier | gps/utils/LocTimer.cpp:503-517 | on any two timers the service compares, delegates with each other or with a clock reading (the current one, or the one an expiry loop took at its start), the source's truncated rank is the comparison of the exact deadlines |
| TimerLifetime.LifeOfStep | gps/utils/LocTimer.cpp:308-390 | every step keeps the delegate invariant: heap order, which of queue, heap and message thread holds each delegate, and the agreement of client and delegate |
| TimerLifetime.LifeOfRemove | gps/utils/LocTimer.cpp:334-346 | running a Remove message takes its delegate out of the heap whenever it is there, so that nothing but the message refers to it when it is deleted |
| TimerLifetime.LifeOfStop | gps/utils/LocTimer.cpp:485-501 | stop() keeps the delegate invariant: its Remove message follows its Push in the queue and is the only one |
| TimerAccounts.ExpiryPopsConserve | gps/utils/LocTimer.cpp:367-390 | the expiry loop on any heap: popped and left together are the heap, all left are in the future, those after the first are due and in order |
| TimerAccounts.ExpiryPopsDue | gps/utils/LocTimer.cpp:367-390 | all popped timers are due if and only if the top is |
| TimerAccounts.ExpiryPopsExact | gps/utils/LocTimer.cpp:367-390 | if the top is due, each timer is popped if and only if it is due |
| TimerProgress.InternalRunsAreBounded | gps/utils/LocTimer.cpp:281-390 | from every reachable state, the service can take only boundedly many steps before a client or the clock has to act: it never spins |
| TimerProgress.EveryDueTimerIsCalledBack | gps/utils/LocTimer.cpp:355-381 | any run of the service to rest, from any reachable state, calls back a client whose set timer is due, exactly once for it |
| TimerProgress.SetTimerIsCalledBack | gps/utils/LocTimer.cpp:355-381 | from every reachable state with a timer set, once the clock has reached the deadline there is a run of the service alone that makes the callback, once, and comes to rest |
| TimerProgress.CanComeToRest | gps/utils/LocTimer.cpp:446-470 | such a run to rest exists from every reachable state |
| TimerProgress.MessageThreadNeverStuck | gps/utils/MsgTask.cpp:84-101 | the message thread can go on from every state but waiting on an empty queue |
| TimerEarlyCallback.StaleEventCallsBackEarly | gps/utils/LocTimer.cpp:367-371 | a run from the initial state in which a stale kernel event calls a client back before its deadline |
| TimerEarlyCallback.RestartCallsBackEarly | gps/utils/LocTimer.cpp:520-532 | a run from the initial state in which a restart inside expire() calls the client back before its new deadline |
| LocTimer.LocTimer.Start | gps/utils/LocTimer.cpp:547-565 | false and no change if a timer is set; else a fresh delegate with the exact deadline, one more lock reference and one Push message |
| LocTimer.LocTimer.Stop | gps/utils/LocTimer.cpp:567-580 | true exactly if a timer was set, which then has no client and one Remove message; no timer is set afterwards |
| LocTimer.LocTimerDelegate.DestroyLocked | gps/utils/LocTimer.cpp:485-501 | clears the client; sends the Remove message the first time and never again |
| LocTimer.LocSharedLock.Share | gps/utils/LocSharedLock.h:50 | one more reference |
| LocTimer.LocSharedLock.Drop | gps/utils/LocSharedLock.h:52 | one reference less; deletes itself exactly on the last |
| LocTimer.LocTimerContainer.UpdateSoonestTime | gps/utils/LocTimer.cpp:281-306 | the container after the call is the one the transition system reaches through its list of kernel calls |
| LocTimer.LocTimerContainer.PushProc | gps/utils/LocTimer.cpp:317-321 | heap, kernel timer and polling after a Push message: WithTimer, which MessageUndisturbed shows the transition system to reach |
| LocTimer.LocTimerContainer.RemoveProc | gps/utils/LocTimer.cpp:334-346 | the same for a Remove message, WithoutTimer, including the comparison of prior top and removed timer when both are NULL |
| TimerRuns.MessageUndisturbed | gps/utils/LocTimer.cpp:317-346 | a Push or Remove message taken by the transition system, with no other step in between, leaves the container as the method of the class leaves it, and the other container alone |
| TimerRuns.ExpireUndisturbed | gps/utils/LocTimer.cpp:377-380 | the three steps of the poll thread for one event: the kernel timer disarmed, the fd out of the epoll set, and one Expire message sent, in that order of calls |
| LocTimer.LocTimerContainer.PopIfOutRanks | gps/utils/LocTimer.cpp:383-390 | pops the top exactly if it is not in the future, else changes nothing |
| LocTimer.LocTimerContainer.ExpireProc | gps/utils/LocTimer.cpp:360-374 | the loop expires the timers of ExpiryPops in order, and leaves the kernel timer set for the rest |
| LocTimer.LocTimerContainer.Expire | gps/utils/LocTimer.cpp:377-380 | disarms, stops polling and sends the Expire message |
| Deadline.FutureTime | gps/utils/LocTimer.cpp:551-558 | the deadline is normalised and is exactly now plus the timeout, for every 32-bit timeout |
| Deadline.LaterIsExact | gps/utils/LocTimer.cpp:553-558 | seconds, nanoseconds and carry added field by field are the exact sum |
| Deadline.RankIsExact | gps/utils/LocTimer.cpp:503-517 | over all normalised times a given number of seconds apart, the rank has the sign of the exact comparison if and only if the truncated seconds do; true for gaps in [-2^31, 2^31), false at 2^31 |
| Deadline.RankOfDeadlines | gps/utils/LocTimer.cpp:503-517 | for deadlines below 2^31 s the rank is positive exactly for the earlier one, so it is a total preorder |
| LocHeapSpec.TopIsMaximal | gps/utils/LocHeap.cpp:134-139 | nothing in an ordered heap outranks the top |
| LocHeapSpec.PushKeepsHeap | gps/utils/LocHeap.cpp:101-124 | push keeps order and cached sizes and adds exactly its element |
| LocHeapSpec.PopKeepsHeap | gps/utils/LocHeap.cpp:126-164 | pop keeps order and cached sizes and takes out exactly the top |
| LocHeapSpec.RemoveIsComplete | gps/utils/LocHeap.cpp:166-193 | the pruned search finds the element if and only if it is in the tree, takes out exactly one occurrence, and keeps order and every cached size |
| LocHeapSpec.CheckNodesIsExact | gps/utils/LocHeap.cpp:195-220 | checkNodes accepts a tree if and only if order and all cached sizes hold at every node |
| LocHeapSpec.PushThenDrainSorts | gps/utils/LocHeap.cpp:228-254 | pushing any items and popping all yields a permutation of them in non-increasing rank |
| LocHeapSpec.PushNeverUnbalances | gps/utils/LocHeap.cpp:113-123 | no node's difference of subtree sizes grows beyond the larger of 1 and what it was, and left minus right in {0, 1} everywhere is kept |
| LocHeapSpec.PushAllIsBalanced | gps/utils/LocHeap.cpp:107-124 | whatever the ranking, a heap of n pushes is balanced at every node, and its height h has 2^(h-1) <= n |
| LocHeap.LocHeapNode.Push | gps/utils/LocHeap.cpp:107-124 | the tree becomes the value-level push; every old link stays and the new node hangs at one former NULL |
| LocHeap.LocHeapNode.Drop | gps/utils/LocHeap.cpp:113-123 | the second half of push: which subtree takes the new node |
| LocHeap.LocHeapNode.Pop | gps/utils/LocHeap.cpp:134-164 | the tree becomes the value-level pop; the popped node is a former leaf that carries the top's data, and only its link is changed |
| LocHeap.LocHeapNode.PopChild | gps/utils/LocHeap.cpp:144-154 | the swap with the picked child and the pop below it |
| LocHeap.LocHeapNode.Remove | gps/utils/LocHeap.cpp:170-193 | the tree becomes the value-level remove, with one leaf taken off; if nothing is found, no link, size or data has changed |
| LocHeap.LocHeapNode.CheckNodes | gps/utils/LocHeap.cpp:197-220 | on the linked tree, true exactly if order and all cached sizes hold |
| LocHeap.LocHeap.Push | gps/utils/LocHeap.cpp:228-235 | push on a possibly empty heap |
| LocHeap.LocHeap.Peek | gps/utils/LocHeap.cpp:237-243 | the top's data, or NULL for an empty heap |
| LocHeap.LocHeap.Pop | gps/utils/LocHeap.cpp:245-254 | returns the top's data and leaves the popped heap; NULL on an empty heap |
| LocHeap.LocHeap.Remove | gps/utils/LocHeap.cpp:256-267 | returns the data if it was found and leaves the heap without it, else NULL and the heap as it was |
| LinkedList.List.Add | gps/utils/linked_list.c:109-154 | prepends; a NULL object is refused and changes nothing; all links stay consistent |
| LinkedList.List.Remove | gps/utils/linked_list.c:161-203 | takes the last element, or reports an empty list |
| LinkedList.List.IsEmpty | gps/utils/linked_list.c:210-222 | true exactly for the empty sequence |
| LinkedList.List.Flush | gps/utils/linked_list.c:229-259 | empties the list and deallocates, in order and once, exactly the objects with a dealloc function |
| LinkedList.List.Find | gps/utils/linked_list.c:284-323 | the scan from the head stops at the first match |
| LinkedList.FirstMatch | gps/utils/linked_list.c:290-323 | the least position that satisfies the predicate, or the length |
| LinkedList.List.Unlink | gps/utils/linked_list.c:296-309 | relinks both neighbours and both ends, for an element at any position |
| LinkedList.List.Delete | gps/utils/linked_list.c:296-317 | removes that element only; deallocates if its data is not handed out and it has a dealloc function |
| LinkedList.List.Search | gps/utils/linked_list.c:266-326 | status, data handed out, list and deallocations for every combination of arguments |
| MsgQueue.NoLostWakeUp | gps/utils/msg_q.c:184-335 | in every run, while a receiver sleeps the queue is not unblocked and there are no more messages than receivers woken and not yet running |
| MsgQueue.UnblockIsFinal | gps/utils/msg_q.c:184-335 | in every run the accepted messages are exactly those sent before the first unblock, in order; the queue is unblocked if and only if an unblock happened; and then nobody sleeps, ever after |
| MsgQueue.ReceiveTakesOldest | gps/utils/msg_q.c:246-267 | a receiver in its loop gets the oldest message, sleeps on an empty queue, or after unblock is refused; one that comes after unblock is refused at once although messages are pending; no other receiver is affected |
| MsgQueue.SendAppends | gps/utils/msg_q.c:200-215 | a send appends its message behind all pending ones and wakes exactly one sleeper if there is one; after unblock it changes nothing |
| MsgQueue.FlushAndUnblock | gps/utils/msg_q.c:288-335 | a flush leaves nothing pending; an unblock wakes every sleeper and keeps all messages |
| MsgQueue.QueueConserves | gps/utils/msg_q.c:184-335 | in every run, what was accepted is, in order, what was received or flushed, followed by what is pending; a receiver is refused only after unblock |
| MsgQueue.LogAndCursor | gps/utils/msg_q.c:184-268 | without flush and unblock the queue is a log with a cursor: the n-th receipt is the n-th accepted message |
| MsgQueue.WakeUpsOfStep | gps/utils/msg_q.c:184-335 | every step, including spurious wake-ups, keeps the wake-up invariant |
| MsgQueue.OrderOfStep | gps/utils/msg_q.c:184-335 | every step keeps the account of accepted messages |
| MsgQueue.MsgQ.Snd | gps/utils/msg_q.c:184-220 | accepts and signals exactly if the message is not NULL and the queue is not unblocked |
| MsgQueue.MsgQ.MustWait | gps/utils/msg_q.c:256 | waits exactly while empty and not unblocked |
| MsgQueue.MsgQ.TakeOut | gps/utils/msg_q.c:261-267 | SUCCESS with the oldest message, or UNAVAILABLE from an empty queue |
| MsgQueue.MsgQ.Flush | gps/utils/msg_q.c:275-298 | empties the queue and deallocates every pending message that has a dealloc function |
| MsgQueue.MsgQ.Unblock | gps/utils/msg_q.c:305-335 | sets the flag and broadcasts the first time, and refuses after that |
| LocThread.DeletedExactlyOnce | gps/utils/LocThread.cpp:113-175 | in every interleaving the delegate is never touched after its deletion, is deleted at most once, and has been deleted once both sides are through |
| LocThread.RunnableDeletedByTaker | gps/utils/LocThread.cpp:177-204 | the thread deletes the runnable once if it took it over, else never |
| LocThread.StopMeansFinished | gps/utils/LocThread.cpp:132-148 | after stop() of a joinable thread, the thread has finished and the delegate is gone |
| LocThread.StopEndsTheThread | gps/utils/LocThread.cpp:132-148 | once stop() is past its first half isRunning() is false, and in every run from there the thread is dead after at most eight more steps of its own, whatever run() returns, and can always take them, so that the join returns |
| LocThread.EndsSoon | gps/utils/LocThread.cpp:177-204 | the same for any thread whose run() returned false or whose delegate was stopped |
| LocThread.RunsUntilStopped | gps/utils/LocThread.cpp:183-192 | in every run in which run() returns true and nobody calls stop(), nor ends the LocThread of a joinable thread, the thread stays in its loop; the goodbye of a detached thread does not end it |
| LocThread.RunAgain | gps/utils/LocThread.cpp:188 | run() is called again if and only if it returned true and the thread was not stopped |
| LocThread.FailedStart | gps/utils/LocThread.cpp:113-125 | after start() returned false, the runnable was taken over if and only if the thread was created, and is deleted when that thread ends |
| LocThread.ThreadEndsFirst | gps/utils/LocThread.cpp:177-204 | a run in which the thread ends before create() looks |
| LocThread.StartFailsAfterTheThread | gps/utils/LocThread.cpp:113-125 | from there start() returns false although the runnable has been deleted, against LocThread.h:75-77 |
| CameraParameters.FlattenRoundTrip | camera/CameraParameters.cpp:192-242 | unflatten(flatten(m)) == m for every sorted map with no '=' in keys and no ';' in values |
| CameraParameters.UnflattenIsClean | camera/CameraParameters.cpp:212-242 | unflatten of any string whatsoever gives such a map |
| CameraParameters.CanonicalForm | camera/CameraParameters.cpp:192-242 | flatten after unflatten is a canonical form of any string |
| CameraParameters.FlattenText | camera/CameraParameters.cpp:197-207 | the flattened form is key=value for each entry in key order, with ';' between them and nowhere else |
| CameraParameters.LessIsAtFirstDifference | camera/CameraParameters.cpp:197-199 | the order of the entries is that of strcmp: it is decided at the first difference |
| CameraParameters.EntriesJoin | camera/CameraParameters.cpp:219-241 | the entries that unflatten reads of any string, with ';' between them and behind them a rest without '=' if there is one, are the whole string; a key reaches up to its '=' even across a ';' |
| CameraParameters.UnflattenKeepsLast | camera/CameraParameters.cpp:217-241 | of any string, the map holds the last entry of each key that was read, and nothing else |
| CameraParameters.PutValue | camera/CameraParameters.cpp:269 | a key set reads back its value, and every other key its old one |
| CameraParameters.PutIsExact | camera/CameraParameters.cpp:269 | after a set the entries are the new one and the old ones of other keys |
| CameraParameters.RemoveKeySorted | camera/CameraParameters.cpp:309-312 | remove keeps the map sorted and takes out exactly the entries of its key |
| CameraParameters.RemoveKeyValue | camera/CameraParameters.cpp:309-312 | after a remove its key has no value and every other key has the one it had |
| CameraParameters.CameraParameters.FlattenMap | camera/CameraParameters.cpp:192-210 | the loop computes the flat form, which unflattens to the map |
| CameraParameters.CameraParameters.UnflattenMap | camera/CameraParameters.cpp:212-242 | the cursor loop computes Unflatten, and the map invariant holds after any input |
| CameraParameters.CameraParameters.Set | camera/CameraParameters.cpp:245-270 | puts the value unless a pointer is NULL or '=' or ';' occurs, else nothing changes; the map invariant is kept |
| CameraParameters.CameraParameters.Remove | camera/CameraParameters.cpp:309-312 | takes out exactly the entry of the key and keeps all others; the map invariant is kept |
| CameraParameters.CameraParameters.Get | camera/CameraParameters.cpp:286-292 | NULL for a missing key and for an empty value |
| CameraParameters.CameraParameters.SetSize | camera/CameraParameters.cpp:365-370 | the printed size is stored, and the getter reads the same pair (the video and picture setters are the same code) |
| CameraParameters.CameraParameters.GetSize | camera/CameraParameters.cpp:372-379 | the pair stored under the key, (-1, -1) when missing or malformed |
| CameraParameters.SizeIsMissing | camera/CameraParameters.cpp:315-379 | a getter yields (-1, -1) for a missing key and for every value whose first number is not followed by 'x' at once |
| CameraParameters.CameraParameters.GetSupportedSizes | camera/CameraParameters.cpp:340-363 | the loop appends the parsed list to what the vector held |
| CameraParameters.SizeIsReadBack | camera/CameraParameters.cpp:365-379 | for all 32-bit pairs, getter after setter returns the pair, also through flatten and unflatten |
| CameraParameters.SizesOfTokens | camera/CameraParameters.cpp:340-363 | for every string, the list parsed is that of the longest prefix of its comma-separated tokens that parse_pair consumes whole |
| CameraParameters.TokensJoin | camera/CameraParameters.cpp:348-362 | these tokens, none of which holds a comma, joined by commas are the string |
| CameraParameters.SizesAreReadBack | camera/CameraParameters.cpp:340-363 | a comma-joined list of printed sizes parses to that list, and followed by a comma and anything it yields the list and then whatever the rest yields |
| CameraParameters.JunkEndsTheList | camera/CameraParameters.cpp:350-355 | a foreign character after a size ends the list before that size |
| CameraParameters.PrintSizeIsClean | camera/CameraParameters.cpp:367-369 | a printed size fits the 32-character buffer and is accepted by set |
| CameraParameters.PairIsReadBack | camera/CameraParameters.cpp:315-338 | parse_pair reads a printed pair back and stops right behind it |
| Numerals.PrintedIsReadBack | camera/CameraParameters.cpp:320-328 | a printed 32-bit number followed by a non-digit reads back as itself |
| Numerals.NumberIsRead | camera/CameraParameters.cpp:320-328 | of any string: spaces, at most one sign and digits are read as the number they write, saturated to a long and cut to an int, up to the first character that is no digit |
| Numerals.NoNumberIsRead | camera/CameraParameters.cpp:320-328 | of any string without a digit behind spaces and sign, nothing is read, and 0 results |
| EvtDispatcher.Dispatcher.Registr | data-ipa-cfg-mgr/ipacm/src/IPACM_EvtDispatcher.cpp:142-171 | appends one registration and touches no freed node |
| EvtDispatcher.Dispatcher.Unlink | data-ipa-cfg-mgr/ipacm/src/IPACM_EvtDispatcher.cpp:182-197 | takes out one node anywhere, steps on to its successor and frees it; prev is needed only behind the head, where it is the true predecessor; no freed node is touched |
| EvtDispatcher.Dispatcher.Deregistr | data-ipa-cfg-mgr/ipacm/src/IPACM_EvtDispatcher.cpp:174-206 | leaves exactly the other listeners' registrations, in order, frees exactly the nodes taken out, and neither reads nor writes a freed node |
| EvtDispatcher.Dispatcher.ProcessEvt | data-ipa-cfg-mgr/ipacm/src/IPACM_EvtDispatcher.cpp:110-140 | calls each matching registration once, in order, and no other |
| EvtDispatcher.WithoutIsExact | data-ipa-cfg-mgr/ipacm/src/IPACM_EvtDispatcher.cpp:174-206 | deregistering removes every registration of that listener and keeps each other one as often as it was |
| EvtDispatcher.MatchingIsExact | data-ipa-cfg-mgr/ipacm/src/IPACM_EvtDispatcher.cpp:120-130 | a listener is called as often as it is registered for the event |
| CmdQueue.MessageQueue.Enqueue | data-ipa-cfg-mgr/ipacm/src/IPACM_CmdQueue.cpp:63-83 | appends, also when Tail points to a message deleted long ago; no deleted message is touched |
| CmdQueue.MessageQueue.Dequeue | data-ipa-cfg-mgr/ipacm/src/IPACM_CmdQueue.cpp:86-99 | takes the oldest message, NULL exactly from the empty queue |
| CmdQueue.MessageQueue.Handle | data-ipa-cfg-mgr/ipacm/src/IPACM_CmdQueue.cpp:157-160 | dispatches one message to the registry and deletes exactly that one |
| CmdQueue.MessageQueue.Process | data-ipa-cfg-mgr/ipacm/src/IPACM_CmdQueue.cpp:102-165 | the consumer, until it has to wait, delivers every queued event in order to every matching registration, and touches no deleted message |
| CmdQueue.MessageQueue.Post | data-ipa-cfg-mgr/ipacm/src/IPACM_EvtDispatcher.cpp:53-108 | appends the event to the queue |
| CmdQueue.EventsInOrder | data-ipa-cfg-mgr/ipacm/src/IPACM_CmdQueue.cpp:63-165 | in every interleaving of posts, consumption and changes of the registry, the events posted are delivered once each in posting order, each to the matching registrations of the registry that the changes before it left |
| CmdQueue.EventDeliveriesAreExact | data-ipa-cfg-mgr/ipacm/src/IPACM_EvtDispatcher.cpp:110-130 | an event is delivered with its own id and data, to each listener as often as it registered for that id, and to nobody else |
| LocApiBase.LocApiBase.GetEvtMask | gps/core/LocApiBase.cpp:138-145 | the scan up to the first NULL computes the union over the whole registry, less the excluded bits |
| LocApiBase.LocApiBase.AddAdapter | gps/core/LocApiBase.cpp:160-170 | appends a new adapter and opens with its mask; nothing for a known one, NULL or a full array |
| LocApiBase.LocApiBase.TakeOut | gps/core/LocApiBase.cpp:177-195 | moves the last adapter into the hole; the reused index ends at the new length |
| LocApiBase.LocApiBase.RemoveAdapter | gps/core/LocApiBase.cpp:172-206 | removes exactly that adapter, closes exactly if none is left and else opens with the remaining mask |
| LocApiBase.RegistryRefinesSet | gps/core/LocApiBase.cpp:160-206 | over every run of adds and removes and for every capacity, the array is duplicate-free and refines a bounded set |
| LocApiBase.RemovedMembers | gps/core/LocApiBase.cpp:172-206 | a removal takes exactly one member from the set and keeps the array duplicate-free |
| LocApiBase.MaskIsUnion | gps/core/LocApiBase.cpp:138-145 | a bit is in the mask if and only if some adapter has it |

## Left out

- Time in the timer service is a number of nanoseconds since boot (`Deadline.OfNs` is the conversion), the clock stays below 2^31 - 4294968 seconds, and the kernel's own clock is the one that the service reads.
- The timer service's queue is a log with a cursor, which `MsgQueue.LogAndCursor` justifies for a queue that is never flushed or unblocked; the service never does either.
- Allocation and `LocTimerContainer::get` succeed, and a client is not destroyed while an `expire` call holds its pointer (the guard of `Close`).
- The methods of module LocTimer are stated for a thread that runs undisturbed; interleavings are the subject of TimerProtocol. The fallback to CLOCK_MONOTONIC and the poll branch for an event without a container are not modelled.
- `mSize` of a heap node is an unbounded integer, so heaps of 2^31 nodes and more are not covered.
- Fairness of the scheduler: that the service does come to rest follows from the bound on its steps only if its threads are scheduled.
- NULL list and queue handles, a NULL output pointer and failed allocation in linked_list.c and msg_q.c; `linked_list_init`, `msg_q_init`, `msg_q_destroy`.
- The receiver's condition wait is in the step system only, since a method cannot wait.
- Of LocThread: the thread's kernel resources, a runnable that no thread took over, and a NULL runnable, for which no delegate is made.
- KeyedVector, String8, sprintf and strtol are not part of the repository; they are modelled as a map sorted by strcmp whose add replaces, as strings without a NUL character, and as decimal printing and reading with a 64-bit long.
- Of CameraParameters: floats, getInt with base 0, dump, the preview format tables, the extra key under QCOM_HARDWARE and CameraParameters_EXT.
- Of IPACM: the statistics counter, freeing of the event data, error returns of pthread calls, and callbacks that change the registry while an event is dispatched.
- Of LocApiBase: the report and request fan-out, isInSession and updateEvtMask, DEFAULT_IMPL stubs. Masks are sets of bit positions.
- LocTimerWrapper, MsgTask's construction and destruction, and all other components of the tree (lights, thermal, fingerprint, init, shims, RIL): device access, tables or wrappers.
