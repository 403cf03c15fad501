# Model of the video-wall node

The repository is the server of a video-wall node: it accepts clients, opens,
raises and closes windows on a wall of decoders, and runs on an edited copy of
the muduo network library. This project models the parts of it that carry
state or arithmetic that is easy to get wrong, and proves what they promise.

Code that changes state in place is modelled by classes and methods with loops
(`TimerQueue.Queue`, `WindowStack.LogicHandle`, `TaskIds.TaskIds`,
`ByteBuffer.Buffer`, `TcpOutput.Connection`, `DecimalText.FixedBuffer`,
`IniConfig.IniConfigFile`, `IdleScan.ServerHandle`). Code that several threads
run is modelled as a transition system whose steps are the stretches between
two points at which the scheduler may switch (`BlockingQueue`, `ThreadPool`,
`EventLoop`). Code that only computes is modelled by functions (`Calendar`, the
UTC half of `TimeZones`).

Each of the four components that serve requests or events has a partner in
simple form (`TimerTable`, `Wall`, `TcpStream`, `IdleRoster`): plain values on
which each request is one step, without indexes, addresses, priorities,
buffers or list nodes. A run of the component is proved to leave what the
replay of its events leaves there, and laws of whole runs are proved there.

| file | what it models |
|---|---|
| TimerTable.dfy | the timers by sequence number: what commands, callbacks and alarms do to them |
| TimerQueue.dfy | two indexes over one heap of timers with reused addresses, a one-shot alarm, batches of callbacks that add and cancel, posts from other threads |
| Wall.dfy | the clients of the windows from bottom to top, those of the sounds, and whose sound each output plays |
| WindowOrder.dfy | window priorities, the list of windows they stand for, and their recovery at a start |
| WindowStack.dfy | the handlers that renumber priorities in place and keep tasks and decoders together |
| TaskIds.dfy | codec IDs from typed pools; a map, a list and a counter per pool that must agree |
| EventLoop.dfy | poll, eventfd and queued functors, for any number of threads |
| Monitors.dfy, BlockingQueue.dfy, ThreadPool.dfy | condition variables; the bounded queue and the worker pool, for any number of threads |
| TcpStream.dfy | the sending half of a connection as messages and bytes: what is sent, accepted, written and waiting |
| TcpShutdown.dfy | what a shutdown does to messages that still wait, on every schedule of the loop |
| TcpOutput.dfy | the connection itself: partial writes, write interest, half-close, forced close |
| ByteBuffer.dfy | the sliding byte buffer and its network-order integers |
| CArithmetic.dfy, Calendar.dfy, TimeZones.dfy | C division; day numbers; UTC and local broken-down time |
| DecimalText.dfy | printing integers |
| IniLines.dfy, IniConfig.dfy | the INI file as lines, and the parser and setter that work on its text by index |
| IniAnyText.dfy | setting and reading one key in any text, well formed or not |
| IniOthers.dfy | what setting one key does to another in any text |
| IdleRoster.dfy | the connections and when each was heard last |
| IdleScan.dfy | the list of connections by age and the timer that stops at the first young one |

What the outside world decides is a parameter: clock readings, the result of a
write or read of a socket, the address an allocation returns, which thread a
notify wakes, whether a request is legal. The codec process acknowledges every
command.

## Where the code does less than its comments or callers suggest

Where a condition decides, the member named states it in both directions; a
member called a witness shows one input.

- `moveWindow` and `closeWindow` given the ID of an audio task disturb the
  priorities of the windows (`WindowStack.LogicHandle.MoveWindow`,
  `WindowStack.LogicHandle.CloseWindow`).
- `openAndMoveWindow` on a window that is already open forgets its task when the
  request is refused, and the window stays open (`WindowStack.LogicHandle.OpenAndMoveWindow`).
- `clearAllTask` of type 1 empties the priority vector under open windows
  (`WindowStack.LogicHandle.ClearAllTask`).
- A start with recovered windows is in order exactly when their sorted
  priorities are 0 to n - 1 (`WindowOrder.RecoveredIff`); nothing checks it.
- `updateThirdTaskIDCodecTaskid` with an ID that is not in use leaves a client
  with a codec ID that can be given out again, and with an ID in use, for a
  client that keeps another one, leaves the ID without a client that could give
  it back (`TaskIds.TaskIds.UpdateThirdTaskIDCodecTaskid`, `TaskIds.LeakStays`).
- The entry of a sound output outlives its task: `clearAllTask` forgets no output,
  and `closeAudio` forgets the one the request names. The next `openAudio` on
  such an output gives the client an ID that is not in use
  (`WindowStack.LogicHandle.OpenAudio`; a witness run is
  `WindowStack.OutputOutlivesTask`).
- A bounded queue of capacity 0 deadlocks (`BlockingQueue.DeadlockIffZeroCapacity`).
- A local time shown twice comes back as the right instant only outside the
  first pass, or when the change is one hour from daylight saving to standard
  time (`TimeZones.LocalRoundTripIff`).
- The calendar formulas fail before 1 March of year -4800: numbers before it
  have no date (`Calendar.NumberHasDateIff`), and no valid date before it comes
  back from its number (`Calendar.DateRoundTripIff`; a witness is
  `Calendar.DayBeforeFails`).
- A message of the loop thread overtakes messages that other threads have sent
  and that still wait in the loop's queue, unless they are all the same
  (`TcpStream.OvertakesIff`; a witness run is `TcpStream.Overtaken`).
- A shutdown can lose messages that other threads have sent and that still wait
  in the loop's queue, because the connection is disconnecting at once and the
  write that empties the buffer then half-closes. On the loop thread, or with
  bytes buffered, none is lost on any schedule exactly when none waits; from
  another thread with nothing buffered, exactly when all that wait but the last
  are empty (`TcpShutdown.ShutdownLosesNothingIff`; a witness run, in which a
  thread loses the message it sent before its own shutdown, is
  `TcpShutdown.LostBySender`).
- A connection is stamped with the clock when it comes up and with the return
  time of the poll when a message arrives, so the list of connections can fall
  out of order by the time one round of the loop takes; the scan then misses an
  idle connection (`IdleScan.ReachesIdleIff`; a witness run is
  `IdleScan.PollTimeIsTooOld`).
- A section or key of the INI file is found under any name that its own name
  begins. In any text, setting one key changes another exactly when the search
  for the other comes to the place where the setter writes
  (`IniOthers.LeftAloneIff`, and `IniLines.OthersInFileIff` on lines; a witness
  is `IniLines.PrefixHeaderTouches`). Where text behind a header's `]` begins
  with `[`, a line put in before it makes it a header
  (`IniOthers.SplitShowsSection` is a witness).
- A comment in `setIniConfFile` says a new key goes to the end of its section,
  but it goes behind the header and the blank lines after it
  (`IniLines.InsertPlace`).
- A new key is lost when the last header of the file has no `]`, unless that
  header does not begin the section's name and a closed one before it does
  (`IniAnyText.SetAbsentIff`; witnesses are `IniAnyText.OpenHeaderWitnesses`
  and `IniConfig.LostWithoutBracket`).

## Model

| member | source | states |
|---|---|---|
| TimerQueue.Queue.Serve | muduo/net/TimerQueue.cc:119-277 | any run of additions, posts, cancellations and alarms, with callbacks that themselves add and cancel, does to the timers what the table says and keeps the queue valid: the indexes agree, every timer is live at one address or freed once, and freed only when cancelled or when it has run and does not repeat, the alarm is never late; a timer cancelled in or before the run is gone and not run after that |
| TimerQueue.Queue.HandleEvent | muduo/net/TimerQueue.cc:119-197 | one event of such a run has exactly the effect of its kind on the table |
| TimerQueue.Queue.HandleRead | muduo/net/TimerQueue.cc:178-197 | one alarm runs each due timer once, in order of expiration, none of them cancelled before; afterwards each is registered one interval after the alarm, in whole microseconds, if it repeats and was not cancelled, and freed otherwise; whatever timer a callback of the batch cancels, its own included, is cancelled and freed; every other timer is untouched or was added or cancelled by a callback |
| TimerQueue.Queue.RunBatch | muduo/net/TimerQueue.cc:178-197 | the alarm does to the table what its callbacks and the settling say |
| TimerQueue.Queue.CallExpired | muduo/net/TimerQueue.cc:181-194 | the due timers are taken out and run once each, and the callbacks change what is live as their scripts say |
| TimerQueue.Queue.CancelInLoop | muduo/net/TimerQueue.cc:158-176 | a registered timer leaves both indexes and is freed once; one in flight is marked; a handle whose address has been reused or freed touches no live timer |
| TimerQueue.Queue.Unregister | muduo/net/TimerQueue.cc:164-170 | out of both indexes and freed, for the first time |
| TimerQueue.Queue.AddTimerInLoop | muduo/net/TimerQueue.cc:147-156 | the timer enters both indexes and the alarm is in time for the new earliest timer |
| TimerQueue.Queue.NewTimer | muduo/net/TimerQueue.cc:119-127 | a new sequence number at an address that may have been used before, at any time, a running batch included |
| TimerQueue.Queue.Insert | muduo/net/TimerQueue.cc:253-277 | both indexes gain the timer; the result says whether the earliest expiration is its own |
| TimerQueue.Queue.GetExpired | muduo/net/TimerQueue.cc:199-219 | takes from both indexes exactly the timers due by now, earliest first, and leaves exactly the later ones |
| TimerQueue.Queue.StillThere | muduo/net/TimerQueue.cc:119-277 | between alarms a timer that was not cancelled and, unless it repeats, has not run is registered or on its way to the loop |
| TimerQueue.Queue.StartBatch | muduo/net/TimerQueue.cc:181-187 | a batch starts with exactly the due timers in flight, none of them cancelled, and no marks |
| TimerQueue.Queue.DropActive | muduo/net/TimerQueue.cc:209-215 | the index by identity loses exactly the extracted timers, which are then in flight |
| TimerQueue.Queue.RunAll | muduo/net/TimerQueue.cc:186-194 | the callbacks run once each and in order, and each does to the table what its script says; timers in flight keep their addresses |
| TimerQueue.Queue.RunOne | muduo/net/TimerQueue.cc:190-193 | one timer of the batch runs, once, and its script has its effect |
| TimerQueue.Queue.RunCallback | muduo/net/TimerQueue.cc:192 | the commands of a callback, posts of other threads among them, have exactly their effect on the table: every added timer that one of them cancels is cancelled, every other stays added, nothing in flight is touched, and the queue stays valid |
| TimerQueue.Queue.Reset | muduo/net/TimerQueue.cc:221-251 | every timer of the batch is re-armed or freed, as the table says, and the alarm is in time again |
| TimerQueue.Queue.SettleAll | muduo/net/TimerQueue.cc:226-240 | the loop of it: after it nothing is in flight and nothing else has changed |
| TimerQueue.Queue.Settle | muduo/net/TimerQueue.cc:228-239 | one timer of the batch is re-armed or freed, the others are left alone |
| TimerQueue.Queue.ArmNext | muduo/net/TimerQueue.cc:242-250 | the alarm is in time for the earliest timer |
| TimerQueue.Queue.Rearm | muduo/net/TimerQueue.cc:229-234 | a repeating timer that was not cancelled returns to both indexes, due one interval after now in whole microseconds |
| TimerQueue.Queue.Discard | muduo/net/TimerQueue.cc:235-239 | any other timer of the batch is freed, for the first time |
| TimerQueue.HowMuchTimeFromNow | muduo/net/TimerQueue.cc:43-57 | the relative time has a legal form, is never zero, which would disarm, and is the distance or 100 microseconds |
| TimerQueue.SetTimeInTime | muduo/net/TimerQueue.cc:70-83 | arming for an expiration fires at it, or 100 microseconds after the arming if that is later |
| TimerQueue.RestartIsLater | muduo/net/Timer.cc:16-26 | a repeating timer's next expiration is not before now, and is now plus its interval in microseconds, rounded down |
| TimerQueue.SplitDue | muduo/net/TimerQueue.cc:203-207 | the search with the largest address as sentry splits the index after the last due timer |
| TimerQueue.InsertedSorted | muduo/net/TimerQueue.cc:264-268 | insertion keeps the order by (expiration, address), adds that entry and no other |
| TimerQueue.ErasedSorted | muduo/net/TimerQueue.cc:166 | erasure keeps the order and removes that entry and no other |
| TimerTable.FireCancels | muduo/net/TimerQueue.cc:186-239 | whatever timer a callback of a batch cancels, its own included, is gone after the batch, whatever the callbacks do before and after that |
| TimerTable.FireSettles | muduo/net/TimerQueue.cc:178-251 | what one alarm makes of every timer: due ones are one interval later or gone, cancelled ones gone, the others as they were |
| TimerTable.ScriptCancels | muduo/net/TimerQueue.cc:158-176 | a cancellation inside a callback dooms its timer, whatever else the callback does |
| TimerTable.ReplayCancels | muduo/net/TimerQueue.cc:129-197 | a timer cancelled between alarms is gone after any run and is not run after its cancellation |
| TimerTable.ReplayLater | muduo/net/TimerQueue.cc:119-277 | over any run no number is given twice, no timer that has gone comes back, and none is run after it has gone |
| TimerTable.RestartedDue | muduo/net/Timer.cc:16-26 | with d the distance to the next expiration: d is at most the interval in microseconds, and d + 1 is more; interval and number stay |
| TimerTable.ConstructedDoes | muduo/net/TimerQueue.cc:119-127 | a new timer at a free address has a number that no timer has had, and no handle names it before the loop has it |
| TimerTable.CancelledDoes | muduo/net/TimerQueue.cc:158-176 | a handle ends the one timer it names, at once or with its batch, and touches no other |
| WindowStack.LogicHandle.Serve | src/LogicHandle.cpp:114-1473 | any run of requests that raise and close windows, open them, clear windows and open and close sound does to the list of windows, the sounds and their outputs what the replay of the requests says, room in the pools included, and the priorities stay a permutation of 0..n-1 that stands for that list, up to the first request of another kind |
| WindowStack.LogicHandle.Handle | src/LogicHandle.cpp:114-1473 | one such request has exactly the effect of its kind on the windows, sounds and outputs |
| WindowStack.LogicHandle.ViewIs | src/NodeInfo.cpp:491-553 | windows, sounds and pictures are the clients whose IDs lie in the ranges of those kinds, and an output plays a client exactly when that client has the ID of the output |
| WindowStack.LogicHandle.HandleCreate | src/LogicHandle.cpp:114-324 | the answer to the client: the code of each refusal by what is on the wall, and with success the window on top |
| WindowStack.LogicHandle.HandleMove | src/LogicHandle.cpp:756-899 | success exactly for a legal request of a client with a window, which is on top then; a refusal leaves the windows |
| WindowStack.LogicHandle.HandleOpenSound | src/LogicHandle.cpp:1225-1381 | the code of each refusal by what is on the wall |
| Wall.CreateDoes | src/LogicHandle.cpp:114-324 | a window opens, on top of the others in their order, exactly for a legal request of a client without a task while there is room |
| Wall.RaiseDoes | src/LogicHandle.cpp:756-899 | a raised window is on top and the others keep their order |
| Wall.CloseDoes | src/LogicHandle.cpp:901-1028 | the window is cut out at its place, and a client without one changes nothing |
| Wall.CloseUndoesCreate | src/LogicHandle.cpp:114-1028 | closing the window just opened leaves the wall as it was, whether or not it could open |
| Wall.ClearDoes | src/LogicHandle.cpp:1030-1223 | after clearing nobody has a task, or with type 0 only the sounds do; every output stays known |
| Wall.OpenSoundIff | src/LogicHandle.cpp:1225-1381 | exactly when a sound opens: on a free output with room, on another that is somebody's |
| Wall.OpenSoundDoes | src/LogicHandle.cpp:1225-1381 | exactly the client that the output played loses its sound, and the output plays the new one |
| Wall.CloseUndoesSound | src/LogicHandle.cpp:1225-1473 | closing the sound just opened on a free output leaves the wall as it was |
| WindowStack.LogicHandle.ViewFacts | src/NodeInfo.cpp:491-553 | each client has one window or one sound, a window is shown for exactly the clients with tasks of that kind, and a pool is used up exactly when there are as many windows or sounds as it has IDs |
| WindowStack.LogicHandle.OpenWindow | src/LogicHandle.cpp:114-324 | a new window goes on top of the list; each refusal has its error code and leaves no trace |
| WindowStack.LogicHandle.MoveWindow | src/LogicHandle.cpp:756-899 | a window goes to the top and the others keep their order; given an audio task the priorities still stand for a list exactly when none is at or above that decoder's; each refusal has its error code |
| WindowStack.LogicHandle.OpenAndMoveWindow | src/LogicHandle.cpp:326-682 | opens with the code of each refusal, or raises what is open; raising keeps the state valid exactly for a legal request on a window |
| WindowStack.LogicHandle.CloseWindow | src/LogicHandle.cpp:901-1028 | a window leaves the list and the others keep their order; the state stays valid exactly when the task is a window or none is open |
| WindowStack.LogicHandle.ClearAllTask | src/LogicHandle.cpp:1030-1223 | closes exactly the tasks of the type; the state stays valid exactly for types 0 and 2, or with no window open |
| WindowStack.LogicHandle.OpenAudio | src/LogicHandle.cpp:1225-1381 | on a free output a sound task succeeds exactly while the audio pool has an unused ID, with a code for each refusal, and leaves windows and priorities alone; on an output in use the task there goes to the new client, and the state stays valid exactly when that task has not ended and is an audio task |
| WindowStack.LogicHandle.ShiftAudio | src/LogicHandle.cpp:1273-1322 | the hand-over of the output's task |
| WindowStack.OutputOutlivesTask | src/LogicHandle.cpp:1030-1381 | a witness run: sound, clearing of all tasks, and the next client of the output gets an ID that is not in use |
| WindowStack.LogicHandle.CloseAudio | src/LogicHandle.cpp:1383-1473 | an audio task ends; a window goes on without its sound, in its place; the output the request names is forgotten |
| WindowStack.LogicHandle.Renumber | src/LogicHandle.cpp:620-635 | the loop lowers exactly the other shown decoders at or above the origin |
| WindowStack.LogicHandle.ShowOnTop | src/LogicHandle.cpp:524-554 | the new priority is the length of the list, and the priority vector stays 0..n-1 |
| WindowStack.LogicHandle.RaiseToTop | src/LogicHandle.cpp:842-879 | the raised decoder gets the last priority and the gap it leaves is closed |
| WindowStack.LogicHandle.Refuse | src/LogicHandle.cpp:458-489 | the removal after a refused open undoes the allocation |
| WindowStack.LogicHandle.constructor | src/NodeInfo.cpp:836-939 | after a start with recovered tasks the vector holds the priorities of the shown decoders in order; tasks and decoders agree exactly when the recovered tasks are those of the open decoders, and the state is valid exactly when also the priorities stand for a list |
| WindowStack.LogicHandle.RecoverPriorities | src/NodeInfo.cpp:845-866 | the loop collects the priorities of the shown decoders |
| WindowOrder.RecoveredIff | src/NodeInfo.cpp:851-900 | the priorities of a recovered table stand for a list of windows exactly when, sorted, they are 0 to n - 1 |
| WindowOrder.SortIs | src/NodeInfo.cpp:900 | sorting gives the same values in ascending order, and none twice that was there once |
| WindowOrder.PlacesCount | src/LogicHandle.cpp:842-879 | any list the priorities stand for has one place for each shown decoder |
| WindowOrder.MoveRepresents | src/LogicHandle.cpp:842-879 | raising and renumbering stands for moving the window to the end of the list; no unsigned priority wraps |
| WindowOrder.CloseRepresents | src/LogicHandle.cpp:974-1007 | closing and renumbering stands for removing the window from the list; no unsigned priority wraps |
| WindowOrder.OpenRepresents | src/LogicHandle.cpp:524-554 | opening stands for appending to the list |
| WindowOrder.MovedStranger | src/LogicHandle.cpp:842-879 | renumbering around a decoder that is not shown gives two windows one priority or wraps the bottom one: no list is left |
| TaskIds.TaskIds.FindNewID | src/NodeInfo.cpp:519-553 | "full" is returned exactly when every ID of the pool is in use, so the final "not enough" never is; otherwise the first unused ID of the pool, and the map, list and counter agree, and every ID in use has a client |
| TaskIds.TaskIds.GetNewCodecTaskID | src/NodeInfo.cpp:491-517 | the type of the task chooses the pool; each refusal changes nothing; the ID is the first unused one of that pool |
| TaskIds.TaskIds.RemoveCodecTaskID | src/NodeInfo.cpp:569-678 | the ID leaves the map and the list and the counter of the pool its range names, which is not zero |
| TaskIds.TaskIds.AllocateAndRemove | src/NodeInfo.cpp:491-678 | removing undoes allocating, for every type of task |
| TaskIds.TaskIds.UpdateThirdTaskIDCodecTaskid | src/NodeInfo.cpp:680-699 | handing an ID over keeps the structures in agreement exactly when the ID is in use or the new client has one already; every ID in use still has a client exactly unless an ID in use is handed to a client that keeps another |
| TaskIds.TaskIds.SetServerTaskID | src/NodeInfo.cpp:701-707 | the client's codec ID, or the error code exactly when there is none |
| TaskIds.TaskIds.SetOutputTaskIDInMap | src/NodeInfo.cpp:836-939 | after a start with recovered tasks the pools, the list and the counters agree with the open decoders, and with the map exactly when that gives different clients different open decoders |
| TaskIds.TaskIds.Release | src/NodeInfo.cpp:569-678 | one case of the removal: map, list and counter change together |
| TaskIds.UnusedExists | src/NodeInfo.cpp:519-553 | pigeonhole: fewer counted than the pool has exactly when one of it is unused |
| TaskIds.UseKeeps | src/NodeInfo.cpp:519-553 | taking an unused ID keeps list without duplicates, map injective and all three counters right |
| TaskIds.ReleaseKeeps | src/NodeInfo.cpp:569-678 | giving an ID back keeps them too, because its range names the pool it came from |
| TaskIds.PoolsHoldNoErrors | src/NodeInfo.cpp:1028-1045 | the ranges of the pools are apart and contain no error code |
| TaskIds.InitialAgreement | src/NodeInfo.cpp:868-939 | counters filled from the open decoders count the used IDs of their pools |
| TaskIds.HandOverKeeps | src/NodeInfo.cpp:680-699 | when the map stays injective into the used list |
| TaskIds.HandOverServes | src/NodeInfo.cpp:680-699 | when every ID in use still has a client afterwards |
| TaskIds.LeakStays | src/NodeInfo.cpp:491-678 | an ID in use without a client is never freed by what allocates and removes |
| TaskIds.BindIs | src/NodeInfo.cpp:562-569 | the high byte of an ID tells its kind |
| TaskIds.IdsOfOrder | src/NodeInfo.cpp:868-939 | the pools list their IDs in the order of the decoders |
| EventLoop.NothingLost | muduo/net/EventLoop.cc:85-278 | for any threads and schedule: a loop in poll with functors or a quit pending has a readable eventfd or a thread about to write it; executed, current batch and pending are the functors queued, in order, once each; and those queued are the functors the steps handed over |
| EventLoop.EveryIterationExecutes | muduo/net/EventLoop.cc:91-113 | in every run, whatever is queued meanwhile: what had been queued when the loop was in a poll has been executed, first, when it tests quit_ again or has stopped |
| EventLoop.AnyFunctorsRun | muduo/net/EventLoop.cc:85-113 | for every sequence of functors there is a run from the start of the loop after which it tests quit_ again with exactly these executed |
| EventLoop.StopsIffQuit | muduo/net/EventLoop.cc:91-127 | a loop that has stopped was told to quit; at its test one that was told stops, and one that was not polls |
| EventLoop.RunQuits | muduo/net/EventLoop.cc:118-127 | after any run quit_ is set exactly if one of its steps has called quit |
| EventLoop.RunQueues | muduo/net/EventLoop.cc:136-160 | after any run the functors queued are those of its calls, in order, and no others |
| EventLoop.StepOnTheirWay | muduo/net/EventLoop.cc:91-270 | every step takes the functors queued before a poll on their way from the queue through the batch |
| EventLoop.IterationExecutesAll | muduo/net/EventLoop.cc:91-113 | there is a way there: from any poll the loop's own steps lead to its next test with everything queued before executed |
| EventLoop.StepKeeps | muduo/net/EventLoop.cc:136-270 | every step of the loop and of any other thread keeps that invariant |
| EventLoop.RunKeeps | muduo/net/EventLoop.cc:85-278 | and so does every run |
| EventLoop.DrainBatch | muduo/net/EventLoop.cc:255-270 | the loop over the batch executes all of it, in order |
| EventLoop.TakeBatch | muduo/net/EventLoop.cc:246-270 | from the poll to the swap the eventfd is read and everything pending becomes the batch |
| BlockingQueue.Correct | muduo/base/BoundedBlockingQueue.h:31-55 | for any threads and schedule: the bound holds, values come out in the order they went in, and no thread sleeps unsignalled beside work it could do |
| BlockingQueue.DeadlockIffZeroCapacity | muduo/base/BoundedBlockingQueue.h:31-55 | producers and consumers can all be asleep together exactly when the capacity is zero |
| BlockingQueue.AnyValuesPass | muduo/base/BoundedBlockingQueue.h:31-55 | for every sequence of values and every capacity but zero there is a run that takes exactly these out in order |
| BlockingQueue.PutDelivers | muduo/base/BoundedBlockingQueue.h:31-40 | the value is at the end and a sleeping consumer is woken, or the queue is full and the thread sleeps with its value |
| BlockingQueue.TakeDelivers | muduo/base/BoundedBlockingQueue.h:42-54 | the first value is out and a sleeping producer is woken, or there is none and the thread sleeps |
| BlockingQueue.WhoCanMove | muduo/base/BoundedBlockingQueue.h:31-55 | exactly the woken threads go on, any that sleeps may wake, and exactly the threads outside can call |
| BlockingQueue.RunKeeps | muduo/base/BoundedBlockingQueue.h:31-55 | with a consumer asleep there is a woken one for every item, and dually, after any run |
| BlockingQueue.StepKeeps | muduo/base/BoundedBlockingQueue.h:31-55 | each step, spurious wakeups included, keeps that count |
| BlockingQueue.PutKeeps | muduo/base/BoundedBlockingQueue.h:31-40 | `put` keeps order, bound and the counts of woken threads |
| BlockingQueue.TakeKeeps | muduo/base/BoundedBlockingQueue.h:42-54 | `take` keeps them |
| ThreadPool.Correct | muduo/base/ThreadPool.cc:60-129 | for any threads and schedule: the bound when there is one, tasks handed out in the order accepted, nobody asleep beside work, and no worker asleep once stopped |
| ThreadPool.AnyTasksRun | muduo/base/ThreadPool.cc:60-129 | for every sequence of tasks, bound and set of workers there is a run in which a worker takes exactly these in order |
| ThreadPool.InlineRuns | muduo/base/ThreadPool.cc:60-63 | a pool without threads runs every task in its caller, in order, whatever the run |
| ThreadPool.RunsUntilStop | muduo/base/ThreadPool.cc:44-129 | after any run the pool is running exactly if nobody has stopped it, with the same workers |
| ThreadPool.RunDelivers | muduo/base/ThreadPool.cc:60-73 | the task is at the end and a sleeping worker is woken, or the pool is full and the caller sleeps with it |
| ThreadPool.TakeDelivers | muduo/base/ThreadPool.cc:97-112 | the worker has the first task, sleeps, or goes on to its test once the pool has stopped |
| ThreadPool.WhoCanMove | muduo/base/ThreadPool.cc:60-112 | exactly the woken threads go on inside run and take |
| ThreadPool.StopEnds | muduo/base/ThreadPool.cc:44-53 | after stop each worker takes at most three more steps, whatever the others do |
| ThreadPool.StoppedWorkerCanMove | muduo/base/ThreadPool.cc:44-53 | and a worker that has not exited can always take one: none can fall asleep again |
| ThreadPool.StoppedStep | muduo/base/ThreadPool.cc:97-129 | no step of any thread restarts a stopped pool or lengthens a worker's way out |
| ThreadPool.StepKeeps | muduo/base/ThreadPool.cc:60-129 | each step keeps the bound, the order and the counts of woken threads |
| ThreadPool.RunKeepsCounts | muduo/base/ThreadPool.cc:60-73 | `run` keeps them |
| ThreadPool.TakeKeepsCounts | muduo/base/ThreadPool.cc:97-112 | `take` keeps them |
| TcpOutput.Connection.Serve | muduo/net/TcpConnection.cc:77-357 | any run of sends from any thread, partial writes, shutdowns, closes and timers leaves the messages, the bytes and the state that the replay of its events says; nothing is lost while no write finds the socket broken or half-closed and the connection is up; unless the loop thread overtook others, bytes on the wire, in the buffer and in the queue are the messages sent, in order, and a closing connection with nothing left to do has half-closed behind the last of them |
| TcpOutput.Connection.Handle | muduo/net/TcpConnection.cc:77-357 | one event of such a run has exactly the effect of its kind, with the answer the kernel can give |
| TcpStream.PeerClosesForGood | muduo/net/TcpConnection.cc:345-357 | in any run: once the peer has closed a connection that was up or closing it is down, and what is sent, accepted, written and waiting never changes again |
| TcpStream.EventDoes | muduo/net/TcpConnection.cc:164-357 | the state after each event that brings and takes no bytes; the messages and their bytes stay as they are |
| TcpStream.AcceptedDoes | muduo/net/TcpConnection.cc:107-162 | for every answer of the kernel: what goes on the wire, what waits, what is lost and which notices are due |
| TcpStream.WrittenDoes | muduo/net/TcpConnection.cc:312-343 | for every answer of the kernel: what moves to the wire, and that the half-close comes exactly with the write that drains a closing connection |
| TcpStream.TurnDoes | muduo/net/TcpConnection.cc:80-229 | what the turn of each functor does |
| TcpStream.SentDoes | muduo/net/TcpConnection.cc:77-105 | a connection that is not up takes nothing; a message overtakes exactly if a different one waits |
| TcpOutput.Connection.Send | muduo/net/TcpConnection.cc:77-87 | when a message counts as sent, goes out at once, waits or is lost; on the loop thread the messages stay accounted for in order exactly if every message it passes is the same and the message is buffered or the socket is not broken |
| TcpOutput.Connection.SendInLoop | muduo/net/TcpConnection.cc:107-162 | a message is accepted whole, partly on the wire and partly buffered, or dropped whole; write interest is on exactly while bytes are buffered; one notice when it went out whole, one exactly when the buffer crosses the high-water mark |
| TcpOutput.Connection.Keep | muduo/net/TcpConnection.cc:146-161 | what the socket took is on the wire and the rest is buffered behind what was |
| TcpStream.AcceptedAccounted | muduo/net/TcpConnection.cc:103-162 | a message's turn moves it from the queue to the stream, in order, unless it is lost |
| TcpStream.AcceptedStreams | muduo/net/TcpConnection.cc:107-162 | accepted messages are on the wire or in the buffer, in order, whatever the write took |
| TcpStream.HappenedKeeps | muduo/net/TcpConnection.cc:77-357 | every event keeps that, the account of messages, and the promise that a shutdown ends in a half-close behind the last byte |
| TcpStream.ReplayKeeps | muduo/net/TcpConnection.cc:77-357 | and so does every run |
| TcpStream.ReplayGrows | muduo/net/TcpConnection.cc:77-357 | wire, messages sent and messages accepted only grow, a connection that is down stays down, and every loss and every overtaking has its cause |
| TcpStream.OvertakesIff | muduo/net/TcpConnection.cc:77-162 | with every message accounted for, a message sent on the loop thread keeps the order exactly if all that wait are the same and it is buffered or the socket is not broken |
| TcpStream.Overtaken | muduo/net/TcpConnection.cc:77-87 | a run after which the wire holds the second message before the first |
| TcpShutdown.ShutdownLosesNothingIff | muduo/net/TcpConnection.cc:164-343 | over every order in which the loop finds the socket writable and executes functors, with no write finding the socket broken: after a shutdown no message is lost exactly when none waits, or, from another thread with nothing buffered, when all that wait but the last are empty |
| TcpShutdown.ScheduleOutOfDanger | muduo/net/TcpConnection.cc:164-343 | no order of such events brings a connection into danger that is out of it |
| TcpShutdown.Endangered | muduo/net/TcpConnection.cc:164-343 | otherwise there is an order that loses a message |
| TcpShutdown.LostBySender | muduo/net/TcpConnection.cc:77-343 | a witness run: a thread sends and shuts down, and its message is lost |
| TcpShutdown.DeliveredInTurn | muduo/net/TcpConnection.cc:164-178 | on the one schedule in which everything queued has its turn before the next write: the stream is half-closed, and when it ends with every waiting message |
| TcpOutput.Connection.BufferRest | muduo/net/TcpConnection.cc:147-161 | the rest is appended and writability is watched |
| TcpOutput.Connection.HandleWrite | muduo/net/TcpConnection.cc:312-343 | written bytes move from buffer to wire; the write that empties the buffer gives its notice, and after a shutdown half-closes |
| TcpOutput.Connection.Shutdown | muduo/net/TcpConnection.cc:164-170 | the half-close has happened, waits for the buffer, or waits in the queue |
| TcpOutput.Connection.ShutdownInLoop | muduo/net/TcpConnection.cc:172-178 | half-closes at once exactly when nothing is buffered, and then the whole stream is on the wire |
| TcpOutput.Connection.HandleClose | muduo/net/TcpConnection.cc:345-357 | a connection that was up or closing is disconnected and neither reads nor watches for writability; wire, sent and accepted messages stay |
| TcpOutput.Connection.ForceClose | muduo/net/TcpConnection.cc:204-212 | a forced close is queued for a connection that is up or closing, and only then |
| TcpOutput.Connection.ForceCloseWithDelay | muduo/net/TcpConnection.cc:214-221 | the connection is closing and the timer is set |
| TcpOutput.Connection.DelayedCloseFires | muduo/net/TcpConnection.cc:204-221 | when the timer fires a closing connection has its forced close queued |
| TcpOutput.Connection.ForceCloseInLoop | muduo/net/TcpConnection.cc:223-229 | a connection that is up or closing is disconnected and watches nothing, and any other stays as it is |
| TcpOutput.Connection.ConnectEstablished | muduo/net/TcpConnection.cc:274-284 | a connecting connection is up and reads |
| TcpOutput.Connection.ConnectDestroyed | muduo/net/TcpConnection.cc:286-295 | a connection that is still up goes down |
| TcpOutput.Connection.RunTask | muduo/net/TcpConnection.cc:80-229 | functors of the connection run in the order queued; a half-close never cuts the stream |
| TcpStream.StreamOfSent | muduo/net/TcpConnection.cc:107-178 | what the account of messages means in bytes, and that a closing connection with nothing left to do has half-closed behind the last byte sent |
| ByteBuffer.Buffer.Append | muduo/net/Buffer.h:182-187 | acts on the readable bytes as concatenation, with room made as needed |
| ByteBuffer.Buffer.Fill | muduo/net/Buffer.h:182-187 | bytes copied behind the readable ones join them |
| ByteBuffer.Buffer.MakeSpace | muduo/net/Buffer.h:390-409 | grows the array or moves the bytes down inside it; the readable bytes stay, and the assertion in it never fails |
| ByteBuffer.Buffer.MoveDown | muduo/net/Buffer.h:402-404 | the copy onto an overlapping lower place delivers the original bytes |
| ByteBuffer.Buffer.EnsureWritableBytes | muduo/net/Buffer.h:194-201 | room for the bytes asked for, readable bytes unchanged |
| ByteBuffer.Buffer.Retrieve | muduo/net/Buffer.h:113-124 | drops the first bytes |
| ByteBuffer.Buffer.RetrieveAll | muduo/net/Buffer.h:153-157 | drops all bytes |
| ByteBuffer.Buffer.RetrieveAsString | muduo/net/Buffer.h:164-170 | returns the first bytes and drops them |
| ByteBuffer.Buffer.Unwrite | muduo/net/Buffer.h:215-219 | drops the last bytes |
| ByteBuffer.Buffer.Prepend | muduo/net/Buffer.h:354-360 | puts bytes in front |
| ByteBuffer.Buffer.Shrink | muduo/net/Buffer.h:362-369 | a new array with the same readable bytes and the reserve |
| ByteBuffer.Buffer.ReadFd | muduo/net/Buffer.cc:25-57 | one read, split over the tail of the array and the spill array, appends exactly the bytes read; an error appends none |
| ByteBuffer.Buffer.ReadCapacity | muduo/net/Buffer.cc:27-37 | how much one read can bring |
| ByteBuffer.Buffer.PeekInt | muduo/net/Buffer.h:290-322 | the integer in range whose byte at each place is that quotient by a power of 256, most significant first; so one appended or prepended is read back |
| ByteBuffer.Buffer.ReadInt | muduo/net/Buffer.h:254-284 | the same, and its bytes are dropped |
| ByteBuffer.Buffer.AppendInt | muduo/net/Buffer.h:224-248 | appends the bytes of a signed integer, most significant first, each given by its quotient |
| ByteBuffer.Buffer.PrependInt | muduo/net/Buffer.h:328-352 | puts them in front, in the same order |
| ByteBuffer.IntRoundTrip | muduo/net/Buffer.h:224-352 | every signed integer of every width decodes from its bytes |
| ByteBuffer.BytesRoundTrip | muduo/net/Buffer.h:290-322 | every byte string of every width is the encoding of the integer it decodes to |
| ByteBuffer.NetworkOrder | muduo/net/Endian.h:31-59 | byte i of n is the integer divided by 256 to the n - 1 - i, modulo 256, for negative ones too |
| ByteBuffer.NetworkOrderRead | muduo/net/Endian.h:31-59 | the same of the integer that any bytes decode to |
| ByteBuffer.Widths | muduo/net/Buffer.h:224-352 | the ranges of the four widths are those of int8_t to int64_t |
| Calendar.DateRoundTrip | muduo/base/Date.cc:20-42 | date to number to date is the identity on valid dates from 1 March of year -4800 on |
| Calendar.NumberRoundTrip | muduo/base/Date.cc:20-42 | number to date to number is the identity, and the date is one of the calendar |
| Calendar.NextDayIsNextNumber | muduo/base/Date.cc:20-27 | the next calendar day has the next number |
| Calendar.NumberCountsDays | muduo/base/Date.cc:20-27 | the formula counts whole years that begin in March, whole months and days |
| Calendar.DateWithNumber | muduo/base/Date.cc:29-42 | every number from there on is some date's |
| Calendar.NumberHasDateIff | muduo/base/Date.cc:29-42 | the inverse formula gives a date of the calendar exactly for the numbers from 1 March of year -4800 on |
| Calendar.DateRoundTripIff | muduo/base/Date.cc:20-42 | a valid date comes back from its number exactly from 1 March of year -4800 on |
| Calendar.DayBeforeFails | muduo/base/Date.cc:20-42 | a witness: the day before has the number of the day itself |
| Calendar.FitsInt | muduo/base/Date.cc:29-42 | the exact last number for which no int of the inverse formula overflows |
| Calendar.NumberFitsInt | muduo/base/Date.cc:20-27 | no int of the first formula overflows on the dates up to that number |
| TimeZones.InstantRoundTrip | muduo/base/TimeZone.cc:317-358 | instant to UTC fields to instant is the identity, before 1970 too, and the fields are valid |
| TimeZones.EpochIs | muduo/base/TimeZone.cc:317-358 | instant 0 is midnight of Thursday, 1 January 1970 |
| TimeZones.TmRoundTrip | muduo/base/TimeZone.cc:317-358 | UTC fields to instant to fields is the identity |
| TimeZones.DayOf | muduo/base/TimeZone.cc:317-343 | the correction turns C's truncating division into rounding down |
| TimeZones.WeekDayRange | muduo/base/Date.h:96-99 | exactly when the weekday lies in 0..6, and that it advances by one modulo 7 |
| TimeZones.WeekDayAdvances | muduo/base/TimeZone.cc:317-343 | a day later the weekday has advanced by one |
| TimeZones.YearDay | muduo/base/TimeZone.cc:317-343 | at every instant tm_yday lies in 0..364 or 0..365 by the leap rule; it counts the days since 1 January exactly in years after -4800, and then is 0 exactly on 1 January |
| TimeZones.FindLocaltime | muduo/base/TimeZone.cc:218-250 | the rule of the last transition not after the key, or before all of them the first rule, by whichever key is asked for |
| TimeZones.LowerBound | muduo/base/TimeZone.cc:229-231 | the binary search splits the table at the key |
| TimeZones.ToLocalTime | muduo/base/TimeZone.cc:272-292 | for instants whose day number fits an int the fields are valid; they are those of the instant shifted by the offset of the rule in force, with its offset and daylight-saving flag |
| TimeZones.FromLocalTime | muduo/base/TimeZone.cc:294-315 | the instant by the search on local keys and the one-hour repair |
| TimeZones.RepairIs | muduo/base/TimeZone.cc:303-312 | the repair happens exactly for a time marked as daylight saving whose instant by the local search is standard time in the same minute of the day |
| TimeZones.LocalRoundTrip | muduo/base/TimeZone.cc:272-315 | with one-hour ends of daylight saving, instant to local time to instant is the identity, in both passes of the repeated hour |
| TimeZones.LocalRoundTripIff | muduo/base/TimeZone.cc:272-315 | for any table of long enough periods: exactly when the round trip holds |
| TimeZones.LocalSearch | muduo/base/TimeZone.cc:294-300 | the local search finds the rule in force, or in a repeated stretch the next one |
| TimeZones.InsideFold | muduo/base/TimeZone.cc:303-312 | what the repair makes of a time in a repeated stretch |
| TimeZones.OutsideFold | muduo/base/TimeZone.cc:294-315 | elsewhere there is no repair and the instant comes back |
| TimeZones.HalfHourFoldFails | muduo/base/TimeZone.cc:303-312 | a half-hour end of daylight saving comes back wrong |
| DecimalText.FixedBuffer.FormatInteger | muduo/base/LogStream.cc:106-114 | appends the decimal text, or nothing when 32 bytes are not free |
| DecimalText.Convert | muduo/base/LogStream.cc:33-55 | writes the decimal text and a NUL at the place and nothing else |
| DecimalText.TextReadsBack | muduo/base/LogStream.cc:33-55 | the text of every 64-bit value, the most negative included, parses back, has no leading zero and fits with its NUL |
| DecimalText.DigitAt | muduo/base/LogStream.cc:33-55 | each character is the digit for its power of ten, most significant first |
| DecimalText.WriteDigits | muduo/base/LogStream.cc:37-45 | the loop writes the digits last one first |
| DecimalText.LastDigit | muduo/base/LogStream.cc:26-44 | a negative remainder indexes the table left of zero at the right digit |
| DecimalText.Reverse | muduo/base/LogStream.cc:52 | reverses a stretch in place |
| IniConfig.ReadTextAfterSet | src/IniConfigFile.cpp:97-215 | a key that has been set reads as its value, whether it was updated, inserted or put in a new section |
| IniConfig.ReadTextOthers | src/IniConfigFile.cpp:97-215 | and another key reads as before, unless both names begin the other's |
| IniConfig.ParseFile | src/IniConfigFile.cpp:97-162 | the index-walking loops end, and report what the recursive scan does, for every text |
| IniConfig.ParseSection | src/IniConfigFile.cpp:126-155 | the loop over the lines of a section |
| IniConfig.FindKey | src/IniConfigFile.cpp:136-153 | the loop over one line finds its first '=' and compares what stands before it |
| IniConfig.IniConfigFile.ReadIniConfFile | src/IniConfigFile.cpp:21-95 | the value cut to the caller's length, or a blank and false, for every file that fits the buffer, read up to its first byte 255; a file without that byte is read whole |
| IniConfig.IniConfigFile.SetIniConfFile | src/IniConfigFile.cpp:163-215 | what the file holds afterwards, up to the first NUL, for every file that fits the buffer, and the missing one, without a '%' behind the place of a new line |
| IniConfig.SetThenRead | src/IniConfigFile.cpp:21-215 | on one object, with a well-formed file that fits or none: after setting a key, reading it finds the value |
| IniConfig.ReadSetRead | src/IniConfigFile.cpp:21-215 | and reading any other key before and after gives the same, which is what the lines say |
| IniConfig.LoadedIs | src/IniConfigFile.cpp:66-92 | a file without byte 255 is loaded whole, any other up to the first one |
| IniConfig.CarriageReturns | src/IniConfigFile.cpp:97-162 | a witness: lines that end in CR LF are read without the CR, and blanks before the first key are skipped |
| IniConfig.ScanAgrees | src/IniConfigFile.cpp:97-162 | the positions found in well-formed text are those of the line, or of the place to insert one |
| IniConfig.ReadTextIs | src/IniConfigFile.cpp:21-65 | reading the text is looking the key up in the lines |
| IniConfig.SetTextIs | src/IniConfigFile.cpp:185-204 | the new text is that of the changed lines |
| IniConfig.SpanInText | src/IniConfigFile.cpp:97-162 | reported positions of a value lie in the text, for every text |
| IniAnyText.SetPresent | src/IniConfigFile.cpp:97-204 | in any text at all a key that is there reads back as its new value |
| IniAnyText.SetAbsentIff | src/IniConfigFile.cpp:97-204 | in any text without NUL a key that is not there reads back exactly when no header is left open, or the open one does not begin the section's name and a closed one does |
| IniAnyText.HeadersDecide | src/IniConfigFile.cpp:97-162 | which headers the search for an absent key finds, and whether it ends before the end of the text |
| IniAnyText.OpenHeaderWitnesses | src/IniConfigFile.cpp:113-115 | witnesses: an open header swallows a new section, and leaves a section before it alone |
| IniOthers.SetTouches | src/IniConfigFile.cpp:97-204 | in any text without NUL, every other name reads as before, or, exactly if its search comes to the place written, the new value; in-place updates, inserted lines and appended sections |
| IniOthers.LeftAloneIff | src/IniConfigFile.cpp:97-204 | so exactly the names whose search does not come there are left alone by every value |
| IniOthers.SplitShowsSection | src/IniConfigFile.cpp:112-155 | a witness for the texts set aside: a section appears when a key is set in another |
| IniOthers.ScanFinds | src/IniConfigFile.cpp:97-162 | the parser walks one chain of headers and lines that does not depend on the names looked for |
| IniOthers.AlignedFind | src/IniConfigFile.cpp:97-162 | what it finds from a header on depends only on the text from there on |
| IniOthers.SameBefore | src/IniConfigFile.cpp:97-162 | what it finds before a header depends only on the text before it |
| IniOthers.UpdateTouches | src/IniConfigFile.cpp:197-203 | a value replaced is read under exactly the names whose search ends at the same line |
| IniOthers.InsertTouches | src/IniConfigFile.cpp:190-196 | a line put in is read under exactly the names that its header and key begin and that are not found before |
| IniOthers.AppendTouches | src/IniConfigFile.cpp:182-189 | an appended section is read under exactly the names not found before that its names begin, unless a header is left open |
| IniConfig.LostWithoutBracket | src/IniConfigFile.cpp:113-115 | a witness: a file whose only header has no ']' loses the new key |
| IniLines.ReadAfterSet | src/IniConfigFile.cpp:185-204 | reading after setting, on lines |
| IniLines.LookupAt | src/IniConfigFile.cpp:97-162 | reading a key gives the value of the first line that begins the key behind a header, the last before it, that begins the section |
| IniLines.LookupNone | src/IniConfigFile.cpp:97-162 | and nothing exactly when there is no such line |
| IniLines.OthersAfterSet | src/IniConfigFile.cpp:185-204 | other keys after setting, on lines |
| IniLines.OthersInFileIff | src/IniConfigFile.cpp:97-204 | in any one well-formed file, no value set for one key changes another exactly when reading the other does not stop where the setter writes |
| IniLines.PrefixHeaderTouches | src/IniConfigFile.cpp:116-151 | a witness: a header that begins the section's name lets one section's key change another's |
| IniLines.OthersAfterSetIff | src/IniConfigFile.cpp:116-151 | in no file whose names are unambiguous for the key being set can it touch the other, exactly when its names do not begin the other's |
| IniLines.InsertPlace | src/IniConfigFile.cpp:97-204 | a new key goes directly behind the last header of its section and the blank lines after it, which is the end of the section exactly when the section has no other lines |
| IniLines.SetKeepsWellFormed | src/IniConfigFile.cpp:185-204 | setting keeps a file well formed |
| IniLines.SetKeepsExact | src/IniConfigFile.cpp:185-204 | and its names unambiguous, so that the laws hold for the next key |
| IniLines.LocateFits | src/IniConfigFile.cpp:97-162 | the place found is the first line of the key in its sections, or the head of the last such section, or nothing |
| IdleScan.ServerHandle.Serve | src/ServerHandle.cpp:39-203 | any run of connections, messages, disconnects and timers leaves the connections, their stamps, their order and the closing ones that the replay of its events says, with each position at its own entry; if stamps go back by at most a slack the list stays in order by that slack |
| IdleScan.ServerHandle.Handle | src/ServerHandle.cpp:39-203 | one event of such a run has exactly the effect of its kind, wherever the list allocates |
| IdleRoster.StampsAreLast | src/ServerHandle.cpp:39-203 | after any run a connection's stamp is that of its last event, or of a timer that found it in the future |
| IdleRoster.ReplayCoherent | src/ServerHandle.cpp:39-203 | after any run exactly the connections that are up are listed, each once |
| IdleRoster.ConnectionDoes | src/ServerHandle.cpp:39-203 | a new connection is listed last, one that is heard moves to the end with its new stamp, one that goes down leaves the list, and the others keep order and stamps |
| IdleRoster.TickDoes | src/BaseServerHandle.cpp:32-59 | the timer begins to close exactly the connected ones older than the limit, in seconds, with none before them that is neither too old nor in the future |
| IdleRoster.TickStamps | src/BaseServerHandle.cpp:47-49 | exactly the future stamps that the scan meets become the present |
| IdleRoster.AgeInSeconds | muduo/base/Timestamp.h:95-103 | the comparisons in microseconds are those of the age in seconds |
| IdleScan.ServerHandle.OnTimer | src/BaseServerHandle.cpp:32-59 | begins to close only connected ones older than the limit; with the list in order every one of them, with a slack every one older by the slack; future stamps are set back; no expired entry is met |
| IdleScan.ServerHandle.Message | src/ServerHandle.cpp:195-200 | the entry moves to the end with its new stamp; the list is in order exactly when the others are and the message is no older than them |
| IdleScan.ServerHandle.ConnectionUp | src/ServerHandle.cpp:44-49 | the entry is appended; the list is in order exactly when the clock has not gone back |
| IdleScan.ServerHandle.ConnectionDown | src/ServerHandle.cpp:50-54 | exactly the connection's own entry is erased, wherever nodes were allocated |
| IdleScan.ReachesIdleIff | src/BaseServerHandle.cpp:35-53 | the early exit misses nothing at any time exactly when the list is in order, for every slack |
| IdleScan.OrderedSetBack | src/BaseServerHandle.cpp:47-49 | setting future stamps back keeps the order |
| IdleScan.PollTimeIsTooOld | src/ServerHandle.cpp:46 | a run of the handler in which stamps of two clocks put the list out of order and the timer closes nobody though a connection is idle |

## Left out

- Sockets, epoll, the unix-socket exchange with the codec process, files on disk, device drivers, LED and LCD, logging: their results are parameters.
- Codec failures in the window handlers: the priorities and flags they leave behind are not modelled; the codec acknowledges every command.
- The copies of priorities in the SWMS-channel map, of which only the moved window's is refreshed.
- `windowBatchControl`, `getInfo`, `setInfo`, `setAudioInfo` and the reading and writing of the saved JSON; what it recovers is a parameter. Tasks and decoders agree only when every open decoder has a recovered client and the shown ones are the open ones for both picture and sound; the constructor says when they do.
- `closeAudio` for an output that is neither of the two reads an uninitialised variable in the code; such requests are set aside.
- Splitting of received bytes into packets: the loop parses the head of the whole string each time. This goes for `handleRead` of a connection and `inputBuffer_` as well.
- `ThreadPool::start` and the destructors; callers of `ThreadPool::run` that are blocked at `stop` stay blocked, and nothing is said of them.
- Functors the loop thread queues before `loop` starts.
- A cancellation that reaches the loop before the addition it cancels has no effect, as in the code.
- A timer of a batch that an earlier callback of the same batch cancels still runs in that batch; what is proved starts with the next batch.
- Overflow of 64-bit times and sequence numbers, and the cast of sizes to `int` in `ReadFd`.
- After a half-close every later write is taken to find the socket broken, as the kernel promises.
- The test of `state_` and the queueing behind it in `send`, `shutdown` and `forceClose` are one step, as in the compare-and-swap the code's comments ask for; another thread in between is not modelled.
- Asynchronous order between the user callbacks handed to the loop and its other functors.
- Reading TZif files (section 3.2 of RFC 8536) and time-zone abbreviations; `gmtime_r` and `timegm` are the project's own UTC functions, as the comments in TimeZone.cc plan.
- `convertHex`, floating-point printing, `findCRLF`, `findEOL`, `CircleBoundedQueue` and the ring buffer inside the bounded queue, which is a sequence here.
- INI files of 1024 bytes or more, which overflow the reader's buffer and lose their contents to the setter; a `%` behind the place of a new line, where the code uses the text as a printf format.
- IniConfig.ReadTextAfterSet: well-formed text ends every line with one `\n`, has nothing after the `]` of a header and no line that starts with a blank; for other texts see `IniAnyText`.
- IniConfig.ReadTextOthers: for well-formed text; for other texts see `IniOthers`, which sets aside texts in which a `[` follows a header's `]`.
- TimerTable.RestartedDue: intervals are reals, where the code multiplies doubles.
- IdleScan.ServerHandle.OnTimer: ages are exact integers of microseconds, where the code divides to a double; the delayed force-close is a flag whose firing is in TcpOutput.
- TimeZones.LocalRoundTripIff: assumes no period is so short that the shift at its start reaches over its end; what the search then finds is not described.
- BlockingQueue.Correct: fairness is not modelled, so no thread is promised its turn.
