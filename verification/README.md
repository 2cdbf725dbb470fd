# Verification of the delay service

This project models the three parts of the delay service on which the timing of every task depends,
and proves how they behave on all inputs and on all runs:

* **The hierarchical timing wheel** (`pkg/timingwheel`). Module `WheelModel` gives the wheel as a
  value: levels with a tick, a clock and buckets over one shared queue. `WheelInvariant`,
  `WheelCascade`, `WheelRuns` and `WheelBounds` prove the invariant of every step, the agreement of
  the wheel with a flat calendar of truncated expirations, the order of firings, the end of every
  drain, the downward movement of timers and the absence of overflow; `WheelTimers` follows one timer
  that is added again and again. `TimingWheels` models the objects themselves (timers, buckets with
  back-pointers, the chain of wheels, the heap) updated in place, and proves that each method changes
  them as the value model says. The calls of a wheel object write down the run that they make
  (`Traced`), so that what is proved of all runs holds of the objects. `Schedulers` and `Plans` are
  `ScheduleFunc` over its two schedulers, on those objects.
* **The delay queue** (`pkg/timingwheel/queue`). `PriorityQueues` is the heap in its slice, with the
  index each item carries and the capacity that doubles and halves. `Handshake` is the sleep and
  wake-up protocol between `Poll` and any number of calls of `Offer`, one transition for each lock,
  atomic operation and channel operation.
* **Tasks** (`internal/service/storage`). `TaskModel` and `TaskRuns` are the table, the executions on
  the wheel and the runs over them; `TaskEnds` says which tasks are executed and how they come to an
  end; `TaskDelivery` puts tasks and wheel together; `TaskStorage` is the storage object with its
  entities and loops; `Nodes` is the division of the table between the live nodes.

Time is what the callers pass in: milliseconds for the wheel, nanoseconds for tasks and schedulers.
`dafny verify dfyconfig.toml` checks everything.

Assumptions of the wheel model: one atomic step for an added timer, one for a stopped timer, and one
for taking the due head off the queue, advancing the clocks and flushing the bucket (a hand-over on
channel `C` without read-ahead). The wall clock does not go back, the start time is not negative, the
tick is at least 1, a wheel has at least 2 buckets, and the goroutine pool accepts every task;
starting a task only records that it started. `OverflowEndsIff` shows why one bucket is not enough:
the recursion of `add` would not end.

Assumptions of the task model: no database errors, no cron expression, every node is configured with
the same fast-path time, and each operation reads the clock once. A delay of 0 is not excluded: the
API allows it (`api/proto/delay/delay.proto:27`), but `Submit` puts nothing on the wheel for it
(`internal/service/storage/storage.go:483`), so the row stays at status 1 for ever; so does it when a
backoff of 0, which the API allows too, takes the in-memory path. That status 1 means one execution is
therefore false of the code: `AlwaysExecutedIff` gives, over all runs, the exact condition under which
it is true, `TaskStalls` a run to the failure from every input that violates it, and `StalledForEver`
says that the row stays as it is. In `TaskDelivery` the task number identifies the task's timer.

## Model

| member | source | states |
|---|---|---|
| Truncation.TruncateMeans | pkg/timingwheel/utils.go:9-14 | For a time that is not negative, truncation is the one multiple of the tick at or below it, less than a tick away. |
| Truncation.TruncateOfNegative | pkg/timingwheel/utils.go:9-14 | Truncation is symmetric about zero, and with a tick of 0 or less nothing is truncated. |
| Truncation.MsOfTime | pkg/timingwheel/utils.go:17-25 | A time in milliseconds is the nanoseconds over a million rounded toward zero, and milliseconds survive the way there and back. |
| Truncation.TruncateNested | pkg/timingwheel/timingwheel.go:151-163 | Truncating to a wheel's tick and then to the overflow wheel's tick is truncating to the latter: passing the truncated time upwards loses nothing. |
| Truncation.SlotNamesOneTime | pkg/timingwheel/timingwheel.go:99-112 | Within one turn a slot stands for one expiration only, so a bucket in use is never given a second one. |
| WheelModel.HorizonGrows | pkg/timingwheel/timingwheel.go:116-131 | With two buckets or more the overflow wheel reaches strictly further than the wheel below. |
| WheelInvariant.NewWheelInv | pkg/timingwheel/timingwheel.go:75-89 | A new wheel satisfies the invariant and holds no timer. |
| WheelInvariant.SameSlotSameTime | pkg/timingwheel/timingwheel.go:98-112 | The bucket that add picks is at rest or already waits for exactly the target time, and is never the one being flushed. |
| WheelInvariant.InsertKeepsInv | pkg/timingwheel/timingwheel.go:97-114 | Inserting keeps the invariant of all levels, buckets and queue items, also in the middle of a flush. |
| WheelInvariant.AddPlaces | pkg/timingwheel/timingwheel.go:92-133 | add puts a timer that has not expired on the lowest level whose horizon lies beyond it, creating the levels up to it and no more; only the first level it looks at can find it expired. |
| WheelInvariant.AddOrRunKeepsInv | pkg/timingwheel/timingwheel.go:137-149 | Adding or running any timer keeps the invariant. |
| WheelInvariant.RemoveKeepsInv | pkg/timingwheel/bucket/bucket.go:112-125 | Removing a timer keeps the invariant; its bucket stays queued. |
| WheelInvariant.RemoveHolds | pkg/timingwheel/bucket/bucket.go:112-125 | Exactly one occurrence of the removed timer goes and no other timer is affected. |
| WheelInvariant.AdvanceMeans | pkg/timingwheel/timingwheel.go:151-163 | The recursion that may stop early still leaves every level at the truncation of the same time. |
| WheelInvariant.PoppedInv | pkg/timingwheel/timingwheel.go:178-180 | Taking the earliest bucket and advancing the clocks keeps the invariant of all other buckets. |
| WheelCascade.RoundMeans | pkg/timingwheel/bucket/bucket.go:137-151 | A flushed timer runs, and then its truncated expiration is the current clock, or goes to a level strictly below its bucket; the bucket under flush is otherwise untouched. |
| WheelCascade.TurnKeepsInv | pkg/timingwheel/timingwheel.go:176-185 | One turn of the event loop keeps the invariant, loses or duplicates no timer, starts only tasks truncated to the popped time, and lowers the remaining work. |
| WheelCascade.TurnMovesOnlyDown | pkg/timingwheel/bucket/bucket.go:133-155 | Strict cascade: a turn leaves each timer in its bucket or moves it from the flushed bucket to a lower level, and the flushed bucket ends empty and at rest. |
| WheelRuns.StartInv | pkg/timingwheel/timingwheel.go:59-64 | The initial system satisfies the whole invariant. |
| WheelRuns.StepKeepsInv | pkg/timingwheel/timingwheel.go:92-188 | Every tick, arrival, cancellation and turn keeps invariant, conservation of timers and order of the log. |
| WheelRuns.WheelRefinesCalendar | pkg/timingwheel/timingwheel.go:92-188 | On every run of any wheel size, whenever the queue is drained at now, the timers fired are exactly those added, not stopped, and due by truncated expiration; the others are held. |
| WheelRuns.SizeDoesNotMatter | pkg/timingwheel/timingwheel.go:39-45 | Wheels of different sizes that saw the same timers have fired the same ones. |
| WheelRuns.FiringOrder | pkg/timingwheel/timingwheel.go:137-188 | No task starts before its truncated expiration, tasks from buckets start in nondecreasing truncated order across levels, and added = held + fired + stopped. |
| WheelRuns.StoppedNeverFires | pkg/timingwheel/bucket/bucket.go:59-72 | After a successful Stop a timer that is not added again is held nowhere and never fires, on every continuation. |
| WheelRuns.DrainIsBounded | pkg/timingwheel/timingwheel.go:176-185 | Draining at a fixed time takes at most as many turns as there are queue items plus levels above the held timers. |
| WheelRuns.DrainGoesOn | pkg/timingwheel/queue/queue.go:69-81 | As long as something is due a turn is possible, and only then. |
| WheelRuns.LevelNeverRises | pkg/timingwheel/bucket/bucket.go:146-148 | Followed along a run, a held timer is in exactly one bucket at each moment, never rises, and the number of its changes of bucket plus its level at the end is at most its level at the start: at most k moves from level k. |
| WheelTimers.StepInTurn | pkg/timingwheel/timingwheel.go:137-149 | Every step keeps it so that all additions of a timer have fired in their order, save the last one, which may be pending. |
| WheelTimers.FiresInOrderOfAdding | pkg/timingwheel/timingwheel.go:246-252 | On every run the k-th firing of a timer carries the k-th expiration with which it was added and not stopped, not before that truncated to the tick; the timer is held exactly when one addition has not fired. |
| WheelBounds.EveryBucketOnEveryRun | pkg/timingwheel/timingwheel.go:92-163 | The global invariant in plain terms, for every level and bucket of every state of every run. |
| WheelBounds.PlacedFarAhead | pkg/timingwheel/timingwheel.go:92-133 | A timer on level k >= 1 lies more than tick * size^(k-1) * (size-1) ahead of the base clock. |
| WheelBounds.OverflowEndsIff | pkg/timingwheel/timingwheel.go:115-131 | The recursion of add ends for every expiration if and only if a wheel has at least two buckets. |
| WheelBounds.NothingOverflows | pkg/timingwheel/timingwheel.go:75-133 | When clock and expirations stay within x, all sums and products stay within x + tick * size or (size + 1) * x. |
| PriorityQueues.Rise | pkg/timingwheel/queue/queue.go:35-39 | Swapping an item with its larger parent leaves the heap ordered except at the parent. |
| PriorityQueues.Sink | pkg/timingwheel/queue/queue.go:35-39 | Swapping an item with its smaller child leaves the heap ordered except at that child. |
| PriorityQueues.RootIsLeast | pkg/timingwheel/queue/queue.go:19-21 | In an ordered heap the element at index 0 is a minimum. |
| PriorityQueues.PriorityQueue.Swap | pkg/timingwheel/queue/queue.go:35-39 | Two items change places and keep knowing their positions. |
| PriorityQueues.PriorityQueue.Push | pkg/timingwheel/queue/queue.go:41-53 | The item is appended; a full slice doubles, so that nothing is written out of range. |
| PriorityQueues.PriorityQueue.Pop | pkg/timingwheel/queue/queue.go:55-67 | The last item is returned with index -1; a slice less than half used and larger than 25 halves, never below its contents. |
| PriorityQueues.PriorityQueue.Offer | pkg/timingwheel/queue/queue.go:109-115 | The heap gains exactly the item and stays ordered; the index read back is 0 if and only if the item is earlier than all others. |
| PriorityQueues.PriorityQueue.PeekAndShift | pkg/timingwheel/queue/queue.go:69-81 | A least item, removed, when one is due; otherwise nothing changes and the exact wait is returned, 0 only for an empty queue. |
| Handshake.StepKeepsInv | pkg/timingwheel/queue/queue.go:109-172 | Every step of Poll and of any call of Offer keeps the protocol invariant. |
| Handshake.SwapKeepsAlarm | pkg/timingwheel/queue/queue.go:117-121 | A compare-and-swap that fails while Poll listens loses no alarm: another call is committed to send. |
| Handshake.PushKeepsAlarm | pkg/timingwheel/queue/queue.go:112-115 | A push that does not reach index 0 is covered by an earlier item whose alarm is still pending. |
| Handshake.WakeupsAreSafe | pkg/timingwheel/queue/queue.go:109-172 | On every run with any number of callers: no lost wake-up, flag plus senders at most 1 and 0 unless Poll listens, every sender has Poll on its way to receive, no item lost or delivered early, what Poll takes is the earliest item of the heap, and its timer fires only when an item is due. |
| Handshake.PeekDecides | pkg/timingwheel/queue/queue.go:69-81 | Under the lock Poll takes the earliest item if any is due at the time it read, and otherwise sleeps until the earliest item, or for good if there is none. |
| Handshake.OnlyNewHeadAlarms | pkg/timingwheel/queue/queue.go:112-121 | A call goes on to the compare-and-swap exactly when its item is earlier than all in the heap, and returns otherwise. |
| Handshake.OfferedIsInserted | pkg/timingwheel/queue/queue.go:109-115 | On every run the heap has been given exactly what the calls were passed: each call inserts once, its own priority, and holds that until then. |
| Handshake.OfferReturns | pkg/timingwheel/queue/queue.go:109-123 | No call of Offer blocks for ever: from every state that satisfies the invariant it returns after at most nine steps of its own, of Poll and of the holder of the lock. |
| Handshake.SenderIsReceived | pkg/timingwheel/queue/queue.go:158-168 | A caller blocked on wakeupC is received after at most one step of Poll alone, also when the timer fired first. |
| Handshake.AlarmWakesPoll | pkg/timingwheel/queue/queue.go:117-123 | When Poll waits past an earlier item, one call of Offer wakes it within three steps of its own. |
| Handshake.DueItemIsDelivered | pkg/timingwheel/queue/queue.go:109-180 | From every state that satisfies the invariant and has a due item, whatever Poll and the callers are doing: at most 18 steps of Poll and of calls already made deliver an item that is no later, or the one Poll had in hand. |
| TimingWheels.Bucket.SetExpiration | pkg/timingwheel/bucket/bucket.go:98-100 | The expiration is set and the result tells whether it changed. |
| TimingWheels.Bucket.Add | pkg/timingwheel/bucket/bucket.go:102-110 | The timer goes to the end of the list and points back. |
| TimingWheels.Bucket.Remove | pkg/timingwheel/bucket/bucket.go:112-131 | The timer is taken out and its pointer cleared only if it points to this bucket. |
| TimingWheels.TimingWheel.constructor | pkg/timingwheel/timingwheel.go:75-89 | A wheel of empty buckets at rest with its clock truncated. |
| TimingWheels.TimingWheel.Put | pkg/timingwheel/timingwheel.go:97-114 | The objects after the insertion stand for the model's insertion; back-pointers and queue included. |
| TimingWheels.TimingWheel.CreateOverflow | pkg/timingwheel/timingwheel.go:116-130 | The chain gains one wheel as the model gains one level. |
| TimingWheels.TimingWheel.Add | pkg/timingwheel/timingwheel.go:92-133 | Objects and result are those of the model's Add; the recursion ends. |
| TimingWheels.TimingWheel.AddOrRun | pkg/timingwheel/timingwheel.go:137-149 | The task is started exactly when the model records a firing. |
| TimingWheels.TimingWheel.AdvanceClock | pkg/timingwheel/timingwheel.go:151-163 | The clocks of the chain become those of the model's Advance. |
| TimingWheels.TimingWheel.Flush | pkg/timingwheel/bucket/bucket.go:133-155 | The loop over the list ends with the model's Flush. |
| TimingWheels.TimingWheel.Expire | pkg/timingwheel/timingwheel.go:178-180 | The head is taken when due, the clocks advance and the bucket is flushed: the model's Expire, or nothing is due. |
| TimingWheels.TimingWheel.Turn | pkg/timingwheel/timingwheel.go:176-185 | One turn at now is a clock reading and the model's Expire of a due head, or nothing is due; both are steps of the run. |
| TimingWheels.TimingWheel.Drain | pkg/timingwheel/timingwheel.go:176-185 | Turning until nothing is due ends, starts only due tasks, leaves no timer that is due, and leaves the objects in agreement with the calendar: all that was ever added, not stopped and due has fired, the rest is held. |
| TimingWheels.NotHeld | pkg/timingwheel/bucket/bucket.go:102-131 | A timer whose pointer is nil is in no bucket, so that it can be added again. |
| TimingWheels.TimingWheel.NewTimer | pkg/timingwheel/bucket/bucket.go:26-31 | A new timer is in no bucket and has an identity that was never used. |
| TimingWheels.TimingWheel.Arrive | pkg/timingwheel/timingwheel.go:137-149 | A timer that is in no bucket can always be added: one arrival in the run. |
| TimingWheels.TimingWheel.AfterFunc | pkg/timingwheel/timingwheel.go:210-213 | A new timer for now + d in milliseconds is added or run as in the model, a clock reading and an arrival in the run. |
| TimingWheels.TimingWheel.Reschedule | pkg/timingwheel/timingwheel.go:246-252 | The same timer is added again with its next expiration, one arrival in the run. |
| TimingWheels.TimingWheel.Stop | pkg/timingwheel/bucket/bucket.go:59-72 | True exactly when the timer was in a bucket; it is then removed from that one position and points nowhere, one cancellation in the run. |
| TimingWheels.NewTimingWheel | pkg/timingwheel/timingwheel.go:39-72 | The base wheel stands for the new wheel of the model, and its run starts there. |
| Schedulers.EveryAdvances | pkg/timingwheel/scheduler.go:9-11 | The k-th nominal expiration is the first one plus k times the whole milliseconds of the interval. |
| Schedulers.EveryIsDriftFreeIff | pkg/timingwheel/timingwheel.go:239-259 | The plan stays at now + (k+1) * interval for ever if and only if the interval is a whole number of milliseconds. |
| Schedulers.BackOffIsPrefixSum | pkg/timingwheel/scheduler.go:18-25 | With whole milliseconds the k-th expiration is now plus the sum of the first k+1 intervals. |
| Schedulers.BackOffScheduler.Next | pkg/timingwheel/scheduler.go:18-25 | The next interval is used once, and none when all are used. |
| Plans.FreeIffFired | pkg/timingwheel/timingwheel.go:246-252 | A timer is in no bucket exactly when it has fired as often as it was added; then its task may add it. |
| Plans.BackOffPlan.Run | pkg/timingwheel/timingwheel.go:246-256 | After any firing the same timer is added for the next expiration of the schedule, one arrival in the run, until the intervals are used up; then nothing happens to the wheel. |
| Plans.BackOffPlanFires | pkg/timingwheel/timingwheel.go:239-259 | For a valid plan the k-th firing of the timer carries the k-th expiration of the schedule; the function has been called len(intervals) times exactly when nothing is left to fire or to call. |
| Plans.BackOffPlanStays | pkg/timingwheel/timingwheel.go:176-185 | A plan stays valid whatever the event loop and other timers do. |
| Plans.BackOffFiresOnEveryRun | pkg/timingwheel/timingwheel.go:239-259 | On every run of the wheel in which the timer is added by this schedule and not stopped, its k-th firing carries the k-th expiration, now plus the sum of the first k+1 intervals for whole milliseconds, and never comes before it, truncated to the tick. |
| Plans.ScheduleBackOff | pkg/timingwheel/timingwheel.go:239-259 | A plan with a new timer added once, one arrival in the run, or none when no interval is given. |
| Plans.EveryPlan.constructor | pkg/timingwheel/timingwheel.go:239-259 | A new timer is added once, for now plus the interval, one arrival in the run. |
| Plans.EveryPlan.Run | pkg/timingwheel/timingwheel.go:246-256 | After any firing the same timer is added for the next expiration of the schedule, one arrival in the run. |
| Plans.EveryPlanFires | pkg/timingwheel/timingwheel.go:239-259 | For a valid plan the k-th firing of the timer in the wheel's log carries the k-th nominal expiration and does not come before it, truncated to the tick. |
| Plans.EveryPlanStays | pkg/timingwheel/timingwheel.go:176-185 | A plan stays valid whatever the event loop and other timers do. |
| Plans.Serve | pkg/timingwheel/timingwheel.go:176-185 | After a drain and, if the timer has fired, its task: the plan is valid, and when the task did not run the next expiration has not come yet. |
| Plans.EveryFiresOnEveryRun | pkg/timingwheel/timingwheel.go:239-259 | On every run of the wheel in which the timer is added by this schedule and not stopped, however late loop and tasks are, its k-th firing carries the k-th expiration, now + (k+1) * interval for whole milliseconds, and never comes before it, truncated to the tick. |
| Plans.AddedStays | pkg/timingwheel/timingwheel.go:176-185 | Turns of the event loop and other timers add nothing to the additions of a timer. |
| TaskRuns.CreateKeeps | internal/service/storage/storage.go:281-342 | A new task, on either path, satisfies the invariant. |
| TaskRuns.PickKeeps | internal/service/storage/storage.go:144-151 | Loading a waiting row, counting the attempt and submitting it keeps the invariant. |
| TaskRuns.NextRowOk | internal/service/storage/storage.go:422-455 | Recording an outcome leaves the row on the schedule that its history determines, for success, both retry paths and the final failure. |
| TaskRuns.NextFlightOk | internal/service/storage/storage.go:432-438 | The in-memory retry leaves one execution that agrees with its row, and the other cases none. |
| TaskRuns.ExecuteMeans | internal/service/storage/storage.go:368-455 | With a running row every status guard of the updates holds. |
| TaskRuns.FlightsCount | internal/service/storage/storage.go:404-410 | For every execution the index into the backoff list is valid. |
| TaskRuns.StepKeepsInv | internal/service/storage/storage.go:281-511 | Every addition, fetch and execution keeps the invariant of all tasks. |
| TaskRuns.EveryTaskFollowsSchedule | internal/service/storage/storage.go:422-511 | On every run the attempts of every task are those of the retry schedule; success and final failure come exactly at its end, with len(Backoff)+1 messages; the next attempt and its timeout are planned in the row. |
| TaskRuns.PlanIsPathIndependent | internal/service/storage/storage.go:321-325 | Two runs with any two fast-path times: tasks with equal parameters whose attempts ended alike had the same planned times, have the same messages, are finished alike, and plan the same next attempt and timeout. |
| TaskRuns.CreateTakesPath | internal/service/storage/storage.go:294-324 | A new row has status 1 if and only if its delay in nanoseconds is within the fast-path time, status 0 otherwise, and belongs to the node that creates it. |
| TaskRuns.FailureTakesPath | internal/service/storage/storage.go:426-454 | After a failure with backoffs left the status is 1 if and only if the next backoff in nanoseconds is within the fast-path time, and 0 otherwise; without backoffs left it is 3. |
| TaskRuns.DelayIsPlanned | internal/service/storage/storage.go:404-410 | For an execution GetDelayTime is the delay, in seconds, that lies between its planned time and the addition or the failure before. |
| TaskRuns.PickIffPlanned | internal/service/storage/storage.go:344-354 | A row can be fetched exactly when it waits, the retry schedule plans its next attempt by the time asked for, and its owner is in the half-open range. |
| TaskRuns.NoPickIsEarly | internal/service/storage/storage.go:344-354 | On every run no fetch asks for a time before the one that the retry schedule plans. |
| TaskRuns.OwnerIsCreator | internal/service/storage/storage.go:312 | On every run a row belongs to the node that created it. |
| TaskRuns.OneExecutionIff | internal/service/storage/storage.go:483-493 | A task has at most one execution, and has one if and only if its row has status 1 and its attempt's delay is not 0 on the path taken. |
| TaskRuns.AllOnWheelIff | internal/service/storage/storage.go:483-493 | Each attempt passes the test of Submit if and only if the delay is not 0 and no backoff of 0 can take the in-memory path. |
| TaskEnds.AlwaysExecutedIff | internal/service/storage/storage.go:457-493 | On every run the task has an execution whenever its row has status 1, if and only if its delay is not 0 and, unless the fast path is switched off by a negative time, no backoff is 0. |
| TaskEnds.AttemptIsReached | internal/service/storage/storage.go:422-455 | Every attempt that is not behind a stalled one is reached by a run, with status 1. |
| TaskEnds.TaskStalls | internal/service/storage/storage.go:321-341 | From every delay of 0 and every backoff of 0 that can take the in-memory path, a run to status 1 without an execution. |
| TaskEnds.RunCounts | internal/service/storage/storage.go:144-151 | On every run a task has one attempt for each execution and at most one fetch for each attempt. |
| TaskEnds.TaskEndsFinished | internal/service/storage/storage.go:422-455 | A task that meets the condition is executed and fetched at most len(Backoff)+1 times, and no step is possible for it exactly when its row has status 2 or 3. |
| TaskEnds.OneNodeFetches | internal/service/storage/storage.go:344-354 | When all live nodes have the same list, the range of exactly one of them lets it fetch a row that waits and is due; the node in its locked_by if that is alive. |
| TaskEnds.CreatorFetches | internal/service/storage/storage.go:110-128 | On every run, while the creator of a task is alive and all live nodes have the same list, its row can be fetched by the creator and no other, exactly when it waits and is due. |
| TaskDelivery.CreatedIsPlanned | internal/service/storage/storage.go:294-295 | A task added at c with delay d is planned, and on the fast path put on the wheel, for c in milliseconds plus 1000 * d. |
| TaskDelivery.LaunchIsPossible | internal/service/storage/storage.go:483-493 | Whenever Submit adds a timer, no timer of that task is on the wheel. |
| TaskDelivery.StepKeepsInv | internal/service/storage/storage.go:483-493 | Every step of tasks and wheel keeps the timers and attempts of every task in step: one firing for each attempt, in order, at the planned times. |
| TaskDelivery.NoAttemptIsEarly | internal/service/storage/storage.go:422-493 | On every run of tasks and wheel each attempt was started by a firing of its own, for the time the schedule plans and not before it, truncated to the tick, and its outcome is recorded no earlier than the firing. |
| TaskDelivery.DueAttemptsAreStarted | pkg/timingwheel/timingwheel.go:176-185 | When nothing is due on the wheel, exactly the executions whose planned time, truncated, has come have been started. |
| TaskDelivery.NextAttemptIsMade | internal/service/storage/storage.go:132-152 | Progress: from every reachable state and for every outcome, a task that is neither finished nor stalled can have its next attempt made and ended so, by time, turns of the loop, one fetch at most and the execution. |
| TaskRuns.ZeroDelayStalls | internal/service/storage/storage.go:321-341 | A task created with delay 0 is marked running and has no execution. |
| TaskRuns.StalledForEver | internal/service/storage/storage.go:344-354 | A running row without an execution is never touched again. |
| TaskRuns.FinalIsFinal | internal/service/storage/storage.go:448-454 | Rows with status 2 and 3 never change, although the last update has no status guard. |
| TaskRuns.TaskGoesOn | internal/service/storage/storage.go:344-354 | A task that is neither finished nor stalled has a fetch or an execution that is enabled. |
| TaskStorage.Storage.constructor | internal/service/storage/storage.go:80-90 | A new storage is empty and owns the whole table; its run starts there. |
| TaskStorage.Storage.SetNodes | internal/service/storage/storage.go:110-128 | The loop computes the range of the first live ordinal not below the node, and keeps the old range if there is none. |
| TaskStorage.Storage.Submit | internal/service/storage/storage.go:457-511 | Table and wheel change as in the model; nothing is scheduled for an entity with delay 0. |
| TaskStorage.Storage.Add | internal/service/storage/storage.go:281-342 | The row is inserted for this node, and submitted at once if and only if its delay in nanoseconds fits the fast path: one addition in the run. |
| TaskStorage.Storage.Pending | internal/service/storage/storage.go:132-152 | The loop over a page of rows, all of which wait, are planned by now plus the advance, and lie in the node's range, submits each of them once, in order: one fetch in the run for each. |
| TaskStorage.PageIsPicks | internal/service/storage/storage.go:144-151 | The loop over a page is a run of single picks, and every row of the page has a valid next attempt number. |
| TaskStorage.Storage.Failure | internal/service/storage/storage.go:422-455 | The entity is rewritten in place as in the model; a running row ends with status 3 without backoffs left, and otherwise with 1 or 0 as the next backoff in nanoseconds fits the fast path or not. |
| TaskStorage.Storage.Execute | internal/service/storage/storage.go:368-402 | Success or failure is recorded, with the message appended first. |
| TaskStorage.Storage.Fire | internal/service/storage/storage.go:483-493 | An execution leaves the wheel and runs as in the model: one execution in the run. |
| TaskStorage.TableFollowsSchedule | internal/service/storage/storage.go:422-511 | The rows of the object are on the retry schedule of the attempts made so far, and a running row has its entity on the wheel unless a delay or backoff of 0 stalls it. |
| Nodes.AboveAllKeeps | internal/service/storage/storage.go:117-126 | A node above all live ordinals keeps the range that it had. |
| Nodes.NobodyListed | internal/service/storage/storage.go:113-115 | Without any live ordinal a node takes the whole table. |
| Nodes.RangeIsOwned | internal/service/storage/storage.go:116-126 | A listed node's range holds exactly the values for which it is the smallest live ordinal at or above, or the largest one if there is none. |
| Nodes.RangesPartition | internal/service/storage/storage.go:110-128 | With the same list on all nodes each value is in the range of exactly one of them, and a node owns its own tasks. |
| Nodes.OwnsExactlyIffListed | internal/service/storage/storage.go:112-126 | A node gets exactly its own rows if and only if it is in the list it is given. |
| Nodes.UnlistedDoublesItsSuccessor | internal/service/storage/storage.go:117-125 | A node missing from the list takes the range of the next larger live node. |
| Nodes.SharesRowsWithOne | internal/service/storage/storage.go:117-125 | A node not above the largest ordinal has rows in common with exactly one live node, which is itself if and only if it is in the list. |
| Nodes.SharesRowsIffUnlisted | internal/service/storage/storage.go:110-128 | No other live node has rows in common with a node if and only if it is in the list, also for a node above the largest ordinal, which keeps its old range. |
| Nodes.OneNodeTakesOver | internal/service/storage/storage.go:113-126 | Removing an ordinal hands its range to one heir and leaves every other range as it was. |

## Left out

- TimingWheels.TimingWheel.Flush: takes the first timer of the list until it is empty instead of following `next` pointers of container/list; the two agree because, as proved, nothing is put back into the list.
- TimingWheels.TimingWheel.Stop: one atomic step, so its retry loop runs at most once; the race between Stop and a running Flush is not modelled.
- PriorityQueues.PriorityQueue.RemoveRoot: container/heap's Remove only for index 0, the only one the queue uses; a capacity of 0, with which the first Push would be out of range, is excluded.
- TaskStorage.Storage.Pending: any page of eligible rows up to the limit; the order of the query and the choice of rows under the limit are the database's.
- TaskStorage.Storage.Fire: the object's run is that of one node alone, and its wheel is a list of entities of which any may fire; steps of other nodes are in `TaskRuns`, and when an execution may start is in `TaskDelivery`.
- Plans.Serve: the task runs after the drain; in the source the goroutine pool runs it at any time after the firing, as `EveryFiresOnEveryRun` allows.
- Handshake.WakeupsAreSafe: up to the closing of exitC; the shutdown paths of Poll and of the wheel are not part of this model.
- TaskDelivery.NoAttemptIsEarly: one node and its wheel; a task's step, its timer on the wheel and the clock reading are one atomic step, and the callback's run time is whatever lies between firing and recorded outcome.
- Read-ahead of Poll over channel C while a bucket is being flushed, and the memory model of the atomic pointers.
- The goroutine pool, its submission errors (on which Flush returns early) and task panics.
- Several operations of one task in the database at the same moment, database errors, row locking, JSON columns and snowflake numbers.
- Cron expressions, the commented-out timeout loop, callbacks, servers, configuration, logging and Kubernetes watches.
- Integer width: `NothingOverflows` gives the bound under which the wheel's 64-bit arithmetic is exact; tasks and schedulers are over unbounded integers.
