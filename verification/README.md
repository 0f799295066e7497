# Verification of the robot service and of the libcurl parts it relies on

The robot service receives tasks over MQTT, runs their actions on devices one after the other, and lets a backend
pause, resume and cancel them. It carries a copy of libcurl. This project models the concurrent core of the service
and some self-contained algorithms of that copy, and proves what they promise.

| file | what it models |
|---|---|
| `Scheduler.dfy` | the scheduler loop, the control calls and the stop handshake with the devices, as one step system |
| `SchedulerRuns.dfy`, `SchedulerFeedback.dfy`, `SchedulerTermination.dfy` | safety, feedback and termination over all interleavings |
| `SchedulerStops.dfy` | the handshake that stops a device, and the calls around the charging, along runs |
| `SchedulerReplacement.dfy` | replacing the current task and interrupting it for charging, over all interleavings |
| `TaskObject.dfy` | the task object with its loops, between whose accesses the other threads do anything they can |
| `Bufq.dfy` | byte queues of linked chunks with spares, a shared pool, and hard or soft limits |
| `CookieText.dfy`, `Cookies.dfy`, `CookieRules.dfy` | domain and path matching, cookie keys and order, and the rules for storing and sending |
| `CookieBuckets.dfy`, `CookieJar.dfy`, `DomainHash.dfy` | the linked buckets, the jar with its index and expiry cache, and the hash of a domain |
| `Gzip.dfy` | the gzip header accumulator and trailer in front of an old zlib |
| `Eyeballs.dfy` | the race of two connection attempts over the addresses of a host |
| `Resolver.dfy`, `ResolverObject.dfy` | the hand-over of data between a resolver thread and its owner, as a step system and as the functions of both |
| `Base64.dfy` | encoder and decoder |
| `CronText.dfy`, `TimedTasks.dfy`, `TimedRuns.dfy` | the cron file of timed tasks, the set itself, and the quota of executions over runs of the scheduler |

`dafny verify dfyconfig.toml` checks everything.

The scheduler and the resolver are step systems: one step is one access to a shared variable by one party, and a
theorem about all sequences of steps is a theorem about all interleavings. A failing iteration of a busy wait changes
nothing and is not a step. The objects whose fields the parties assign are classes beside them, with the loops and
waits of the program: between any two accesses the other parties take any steps of an arbitrary finite script, and a
ghost history ties the statements to the step system. The other components are classes and methods with loops over
linked nodes, arrays and sequences, proved against functions on sequences whose meaning is stated by lemmas.

## What the code does not promise after all

- A task whose JSON has no `executed_count` cannot be run up to a maximum above one: the completion callback updates
  the count with a checked access and throws (`TimedTasks.QuotaNeedsCount` has the exact condition).
- A result list is lost when the resolver thread cannot signal its owner after a successful resolve: the error code
  set then makes the owner ignore the list and forget it (`Resolver.ReleasedExactlyOnce`, `Resolver.ListIsDropped`).
- An assignment can wait for ever: a pause whose run ends before it is served leaves its request behind, a second
  thread for the same task takes it up, and the thread that could resume it waits for that run to end
  (`SchedulerReplacement.AssignmentMayBlock`). It takes a thread that no assignment has asked for, such as the one
  that is started after a refusal (`SchedulerReplacement.NeverBlocked`).
- The battery can be charged while an action runs: before a new task has entered `run` the pause does nothing
  (`SchedulerReplacement.ChargingMayMeetAction`, and `SchedulerReplacement.ChargingIsAlone` for when it cannot).
- Cancelling a resolve can read released memory: the owner sets the flag, leaves the critical section and only then
  reads the thread handle, while the thread may enter, find the flag set and free the data
  (`Resolver.OwnerIsOvertaken`; `Resolver.SafeAlongRun` says that nothing else can).
- A cookie whose domain has no dot can match a host and still not be found, because host and domain have different
  top domains (`CookieText.TopDomainsAgree`, `CookieRules.DotIsNeeded`); "localhost" and a host below it are such a
  case (`DomainHash.LocalhostIsLost`).
- A secure cookie with path "/login" also keeps out a non-secure one with path "/loginhelper", although a comment in
  `cookie.c` says that this is allowed: only a prefix is compared (`CookieRules.LoginHelperIsRefused`). A secure
  cookie for the root that is stored with the path "/" does not keep out one with the empty path, which is the root
  as well (`CookieRules.OverlayDiffers` has both cases).
- A path attribute that ends in a slash matches the path without it, which RFC 6265 refuses
  (`CookieText.PathMatchAgrees` has the exact condition).
- Among cookies with paths of equal length the newer one is sent first unless domain or name decide, where section 5.4
  of RFC 6265 asks for the older one (`Cookies.OrderAgrees` has the exact condition).
- `Curl_bufq_is_full` is not the same as "no space" under a soft limit (`Bufq.Queue.FullMeansNoSpace`).

## Model

| member | source | states |
|---|---|---|
| `Scheduler.InvInitially` | task.hpp:26-73 | The service at start, with an empty task and all devices at rest, satisfies the invariant of the protocol. |
| `Scheduler.InvStep` | task.cpp:113-249 | Every step of every party, in any state of the invariant, keeps it: which program points go with which status, that the written request is the one of the call in flight, why a pause may be left, that exactly the device of the polling action runs, and that a stop request is up only while its call waits. |
| `Scheduler.RunKeepsDevices` | device_mqtt.cpp:115-181 | No step of the scheduler loop breaks the link between the running device, the current action and the stop request. |
| `Scheduler.ControlKeepsStops` | device_mqtt.cpp:330-341 | No step of a control call makes a stopped action unknown to the call that stopped it, or lets an action start while a stop request is up. |
| `SchedulerRuns.ReachableInv` | task.cpp:113-249 | Everything that any interleaving reaches satisfies the invariant. |
| `SchedulerRuns.StoppedOnlyByCall` | task.cpp:161-163 | An action returns an emergency stop only while a pause or cancel is in flight whose request still stands. |
| `SchedulerRuns.StopNeedsWaitingCall` | device_mqtt.cpp:154-158 | A polling action that sees a stop request is being waited for by the `stop` of the pause or cancel in flight. |
| `SchedulerRuns.StoppedActionWaits` | task.cpp:128-152 | After an emergency stop no action starts before the pause has been served and every `stop` of its call has returned, or the run is over. |
| `SchedulerRuns.StoppedIsHeld` | task.cpp:161-163 | Every reachable state with a stopped action is one from which `StoppedActionWaits` holds. |
| `SchedulerRuns.StoppedActionIsRetried` | task.cpp:154-167 | The first action that starts after an emergency stop is the stopped action itself. |
| `SchedulerRuns.ServedBeforeOverwritten` | task.cpp:201-249 | An accepted pause, resume or cancel stands unchanged until its effect or the end of the run has been seen by its call; only then is another request accepted. |
| `SchedulerRuns.AtMostOneMoreStart` | task.cpp:128-156 | While a pause or cancel is pending at most one more action starts, and none if the loop was not already past the test of the request. |
| `SchedulerRuns.PausedStaysPaused` | task.cpp:143-151 | A paused task starts and publishes nothing until a resume or cancel request is written, however long the run goes on. |
| `SchedulerRuns.CountRisesPerRun` | task.cpp:116-118 | Within one assignment the count of executions rises exactly once per run, whatever calls come in between. |
| `SchedulerRuns.PauseReturnsQuiet` | task.cpp:201-217 | When `pause` returns with the task paused, the loop waits, no device runs and no stop request is left. |
| `SchedulerRuns.OneThreadPerArrival` | smart_service.cpp:283-303 | In every run the threads started and not yet in `run`, those that have entered it, and the task in the hands of the handler are as many as the tasks and repeated executions that have arrived: each starts exactly one thread, also a task that is refused. |
| `SchedulerStops.StopIsRaised` | device_mqtt.cpp:330-341 | In every interleaving: if the `stop` of a call finds a stoppable device running, its request is raised by a later step and is up in every state from then on until a state in which the device is stopped, and the call has not gone on before. |
| `SchedulerStops.EveryDeviceIsTested` | task.cpp:201-249 | Between the acceptance of a pause or cancel and its wait for the effect every device is tested. |
| `SchedulerStops.EveryDeviceIsStopped` | device_mqtt.cpp:330-341 | So an accepted pause or cancel that has come to wait for its effect has stopped every stoppable device that ran when it was tested, by a request that stood until the device was seen stopped. |
| `SchedulerStops.ActionGetsStopped` | device_mqtt.cpp:154-158 | For every task whose first action is polling, a reachable state in which a pause has stopped that action: the case that the theorems about stopped actions speak of occurs. |
| `SchedulerStops.PauseComesFirst` | smart_service.cpp:378-385 | Whenever the battery is charged, a message of low battery has come before, a pause has been called for it, and the charging has begun only when that call had returned. |
| `SchedulerStops.ResumeComesNext` | smart_service.cpp:378-385 | After the charging a resume is called, and the next message is taken only when that call has returned. |
| `SchedulerReplacement.GatePassed` | smart_service.cpp:188-199 | A task that is about to be assigned has passed the gate on an earlier step, and the current task has had the same priority ever since. |
| `SchedulerReplacement.ReplacedAfterItsEnd` | smart_service.cpp:188-199 | In every run a task is replaced only by one of at least its priority, or after its end was seen at the gate; at the assignment no call is in flight, no thread is inside `run`, and the end of the old task is the last thing published. |
| `SchedulerReplacement.RefusalKeepsTask` | smart_service.cpp:189-192 | A task of lower priority leaves the current one alone whatever its status, executing and paused included: until the next message no request is written, no call made, and only the loop itself changes the status or publishes. |
| `SchedulerReplacement.PauseFreesDevices` | smart_service.cpp:378-385 | When the pause for charging has taken effect, the devices are free. |
| `SchedulerReplacement.ChargingIsAlone` | smart_service.cpp:378-385 | While the battery is charged no action starts and no device changes, if the task rests in a pause or no thread is in `run` or waits for it. |
| `SchedulerReplacement.ChargingMayMeetAction` | smart_service.cpp:378-385 | A run in which an action of the task starts while the battery is charged: the pause does nothing before the task has entered `run`. |
| `SchedulerReplacement.AssignmentMayBlock` | smart_service.cpp:189-199 | A run in which an assignment waits for ever: an extra thread takes up a pause request that its call has left behind, and the handler that could resume it waits for the end of that thread. |
| `SchedulerReplacement.BlockedForEver` | smart_service.cpp:198-198 | From such a state no step of anybody is possible. |
| `SchedulerReplacement.NeverBlocked` | smart_service.cpp:283-303 | If every assigned task gets exactly one thread, no assignment ever waits for a pause. |
| `SchedulerFeedback.FeedbackShape` | task.cpp:113-199 | In every reachable state every event published so far may follow the ones before it (`MayFollow`), and the last one is an end exactly when no thread is in `run`. |
| `SchedulerFeedback.NothingFollows` | task.cpp:132-199 | On the whole log: nothing follows an end, and nothing but one end follows a cancel or a failure. |
| `SchedulerFeedback.StartsInOrder` | task.cpp:152-167 | Starts come in list order, and only the action without a result is started again. |
| `SchedulerFeedback.ResultsInOrder` | task.cpp:163-167 | Every action is reported as executed at most once, and in list order. |
| `SchedulerFeedback.ResultAfterStart` | task.cpp:152-192 | A result or a failure is that of the action started last, with nothing but pauses in between. |
| `SchedulerFeedback.CompleteLog` | task.cpp:116-199 | A log that has ended without failure or cancel reports every action of the list, or is that of a run refused for its count. |
| `SchedulerFeedback.ResultsAreSorted` | task.cpp:52-56 | With the list sorted by number, as loading sorts it, results come in increasing order of their numbers. |
| `SchedulerTermination.InternalStepCost` | task.cpp:113-249 | Every step of the program but an assignment, if it is not a failing poll, lowers a measure over program points, remaining actions, devices and waiting threads. |
| `SchedulerTermination.BoundedWork` | task.cpp:113-249 | Over any run within one assignment the number of such steps is bounded by the first measure plus the cost of the calls, threads and messages that arrive. |
| `SchedulerTermination.Progress` | task.cpp:113-249 | Unless no call or message is in work and the task is over or left in a pause, or an assignment waits for a pause, some party can move: no other deadlock and no lost wake-up. |
| `SchedulerTermination.RunsToRest` | task.cpp:113-249 | Without new calls a run makes at most `Measure` steps, and nobody can move if and only if all calls have returned with the task over or paused, or the assignment is blocked. |
| `TaskObject.AfterIsReachable` | task.cpp:113-249 | What the loops below do is a run of the step system, so that all theorems about it hold of the object. |
| `TaskObject.SharedTask.RunTask` | task.cpp:113-199 | `run` with its loop, whatever the other threads do between its accesses: the history goes on by possible steps only, the count is raised once, the feedback is proper, and when it returns the task is over and the end is the last thing published; it stays only in a pause that nobody ends. |
| `TaskObject.SharedTask.ServePause` | task.cpp:143-151 | A pause request, and nothing else, makes the loop pause and publish the pause, once; it goes on only when a resume or cancel request stands, and it is left waiting only with neither of them standing. |
| `TaskObject.SharedTask.ExecuteAction` | task.cpp:152-193 | Outside of an executing task nothing happens. Otherwise the start is published, and then either the failure, or the result with the next action due, or nothing, and then the action was stopped by a pause or cancel still in flight and stays the current one. |
| `TaskObject.SharedTask.PollDevice` | device_mqtt.cpp:115-181 | The polling loop ends with the device stopped and tells a stop from an arrival; status, list position, action number and feedback of the task are untouched. |
| `TaskObject.SharedTask.StopDevice` | device_mqtt.cpp:330-341 | `stop` of a device returns with its request withdrawn; it stays only at a device that runs on. If it was called for a stoppable device that runs and has returned, the history has the step that raised the request and the later one at which the device was seen stopped, with the request up in every state between them. |
| `TaskObject.SharedTask.PauseTask` | task.cpp:201-217 | A pause is accepted if and only if the task executes; then it returns when the task is paused, with the loop waiting and all devices at rest, or over. One that is not accepted writes nothing. |
| `TaskObject.SharedTask.ResumeTask` | task.cpp:219-231 | A resume is accepted if and only if the task is paused; then it returns when the task executes or is over. One that is not accepted writes nothing. |
| `TaskObject.SharedTask.CancelTask` | task.cpp:233-249 | A cancel is accepted if the task executes at its first test, or is paused at its second one, and not otherwise; once accepted it returns when the task is over. One that is not accepted writes nothing. |
| `TaskObject.SharedTask.SetCurrentTask` | smart_service.cpp:188-200 | For a current task of any status: it is replaced if and only if the new one has at least its priority or it is over; a refusal leaves task and request alone; a replacement is a step of the history, during this call, before which no thread ran the old task, which had published its end unless it had never run; and in any case the last step starts one thread. |
| `SchedulerTermination.ArrivalCost` | task.cpp:201-249 | A new call or thread raises the measure by no more than a fixed cost. |
| `Bufq.Chunk.Append` | third/curl-8.4.0/lib/bufq.c:59-71 | Appending to a chunk extends its unread bytes by the prefix of the input that fits. |
| `Bufq.Chunk.Drop` | third/curl-8.4.0/lib/bufq.c:73-92 | Reading or skipping drops exactly the first bytes; a chunk read empty starts over. |
| `Bufq.Popped` | third/curl-8.4.0/lib/bufq.c:172-176 | Without its first node a linked list is a linked list up to null, and the first node is not in it. |
| `Bufq.Pushed` | third/curl-8.4.0/lib/bufq.c:200-202 | A node that leads to the first one makes a linked list. |
| `Bufq.Memory.FreeList` | third/curl-8.4.0/lib/bufq.c:147-155 | The walk over the `next` pointers frees every chunk of the list exactly once. |
| `Bufq.Pool.Take` | third/curl-8.4.0/lib/bufq.c:169-191 | A chunk taken from the pool is empty and leads nowhere; it is the first spare, which is unlinked, or new; every address is accounted for. |
| `Bufq.Pool.Put` | third/curl-8.4.0/lib/bufq.c:193-205 | A returned chunk is emptied and linked as the first spare or, if there are enough, freed; the count stays equal to the list and within its maximum. |
| `Bufq.Pool.Free` | third/curl-8.4.0/lib/bufq.c:207-211 | All spare chunks of the pool are freed, each once. |
| `Bufq.Queue.LinkTail` | third/curl-8.4.0/lib/bufq.c:366-385 | The chunk is linked behind the tail, or becomes head and tail of an empty list; the rest of the list stays linked in order. |
| `Bufq.Queue.PopHead` | third/curl-8.4.0/lib/bufq.c:338-346 | The first chunk is unlinked, and the tail pointer becomes null exactly when it was the only one. |
| `Bufq.Queue.GetSpare` | third/curl-8.4.0/lib/bufq.c:308-336 | A chunk is found exactly if there is a spare one or the limit is soft or not reached; it is empty, leads nowhere and is in no list; no address is lost or doubled. |
| `Bufq.Queue.PruneHead` | third/curl-8.4.0/lib/bufq.c:338-364 | Removing empty chunks changes no content and keeps all pointers; each goes to the pool, the spares or is freed. |
| `Bufq.Queue.GetNonFullTail` | third/curl-8.4.0/lib/bufq.c:366-385 | The tail is returned with room exactly if the limit is soft or space is left; content and space do not change. |
| `Bufq.Queue.Write` | third/curl-8.4.0/lib/bufq.c:387-418 | Appends exactly min(len, space) bytes of the input, all of them under a soft limit; refuses exactly if there is something to write and a hard limit leaves no space. |
| `Bufq.Queue.Read` | third/curl-8.4.0/lib/bufq.c:420-441 | Returns and removes exactly the first min(len, length) bytes. |
| `Bufq.Queue.Peek` | third/curl-8.4.0/lib/bufq.c:443-456 | Shows a nonempty prefix of the content exactly if there is one, and changes no content. |
| `Bufq.Queue.PeekAt` | third/curl-8.4.0/lib/bufq.c:458-479 | Shows a nonempty stretch of the content from the offset on, exactly if the offset lies inside. |
| `Bufq.Queue.Skip` | third/curl-8.4.0/lib/bufq.c:481-490 | Removes exactly the first min(amount, length) bytes. |
| `Bufq.Queue.Len` | third/curl-8.4.0/lib/bufq.c:262-271 | The computed length is the number of bytes that can be read. |
| `Bufq.Queue.SpaceLeft` | third/curl-8.4.0/lib/bufq.c:273-289 | The computed space is the room in the tail, the spares and the chunks that may still be made. |
| `Bufq.Queue.EmptyMeansNoBytes` | third/curl-8.4.0/lib/bufq.c:291-294 | The test on the first chunk holds exactly if there is no byte to read. |
| `Bufq.Queue.FullMeansNoSpace` | third/curl-8.4.0/lib/bufq.c:296-306 | Under a hard limit the queue is full exactly if there is no space; under a soft one also when it has outgrown the limit. |
| `Bufq.Queue.Reset` | third/curl-8.4.0/lib/bufq.c:250-260 | All chunks are relinked as spares, none is lost, head and tail are null, and the queue is empty. |
| `Bufq.Queue.Free` | third/curl-8.4.0/lib/bufq.c:242-248 | All chunks of the queue are freed, each once, the pointers are null, and the chunks of the pool are left alone. |
| `Bufq.Queue.Pass` | third/curl-8.4.0/lib/bufq.c:492-522 | Whatever the writer does, what it accepted followed by the content is what it was before. Result, error and the number of bytes passed on are exactly those of offering the chunks one after the other (`PassTo`): it goes on until a reply blocks, fails or takes nothing or nothing is left, and a failure is the result also after a partial write. |
| `Bufq.PassGoesOn` | third/curl-8.4.0/lib/bufq.c:492-522 | Passing chunks on ends with bytes left exactly if the last reply used took nothing, blocked or failed, or no reply was left; every reply before it took something. |
| `Bufq.WillingWriterGetsAll` | third/curl-8.4.0/lib/bufq.c:492-522 | A writer that takes something on every offer, and has a reply for every byte, gets the whole content, and the result is its length. |
| `Bufq.Queue.WritePass` | third/curl-8.4.0/lib/bufq.c:524-573 | Accepted bytes followed by the content equal the old ones followed by the part of the input that was taken; a blocked call has taken nothing, and a queue with room takes something. It stops short only if the writer failed, and then that failure is the result, or if the writer stopped with the queue full. |
| `Bufq.Queue.Sipn` | third/curl-8.4.0/lib/bufq.c:575-606 | Without space under a hard limit nothing is read; otherwise the reader is asked once, for exactly the room in the tail or the limit given, its reply is the result, and the content grows by exactly what it delivered. |
| `Bufq.Queue.Slurpn` | third/curl-8.4.0/lib/bufq.c:614-650 | The content grows by exactly what the reader delivered, also when the call returns an error; with space a willing reader delivers. A failure of the reader, and nothing else, is returned as one, and without it reading stops only at the limit given, at a reply that is short or blocks, or when the queue is full. |
| `Bufq.PerformBeside` | third/curl-8.4.0/lib/bufq.c:159-211 | Any of the ten operations on one queue answers as the content of that queue demands (`Answers`) and leaves the content that its outcome implies (`After`); another queue on the same pool keeps its content and shares no chunk with it, and the live chunks of others stay as many. |
| `Bufq.RunShared` | third/curl-8.4.0/lib/bufq.c:159-211 | In every run of operations on two queues with one pool each queue has answered all of its own operations rightly and holds what they imply, as if it were alone; what the outcomes say has gone out, followed by what is left, is what was there followed by what they say has come in. |
| `Bufq.FirstInFirstOut` | third/curl-8.4.0/lib/bufq.c:387-650 | Right answers alone imply that a queue is first in, first out over every sequence of operations. |
| `Bufq.OnePlace` | third/curl-8.4.0/lib/bufq.c:147-260 | An address is at one place of one list at most; without other owners it is live exactly if it is in head list, spare list or pool. |
| `Bufq.WithinLimit` | third/curl-8.4.0/lib/bufq.c:273-289 | Under a hard limit the unread bytes, the space left and the bytes of the first chunk that have been read are together exactly what the allowed chunks hold; so less than one chunk of the limit is ever lost. |
| `Bufq.ContentExact` | third/curl-8.4.0/lib/bufq.c:262-271 | The chunks of a list hold exactly the unread bytes, the room in the tail and what has been read of the first chunk; no other chunk has room or has been read. |
| `CookieText.TopDomainsAgree` | third/curl-8.4.0/lib/cookie.c:123-251 | A host that tail-matches a domain has the same top domain, up to case, if and only if the domain contains a dot or is the whole host. |
| `CookieText.PathMatchFollowsRfc` | third/curl-8.4.0/lib/cookie.c:156-225 | If there is no slash to remove from the path attribute, matching the stored path decides as section 5.1.4 of RFC 6265 does. |
| `CookieText.PathMatchAgrees` | third/curl-8.4.0/lib/cookie.c:294-325 | The program and RFC 6265 agree on all requests if and only if the path has no slash to remove or contains a question mark. |
| `Cookies.SameKeySameHash` | third/curl-8.4.0/lib/cookie.c:279-289 | Cookies with the same replacement key belong to the same bucket. |
| `Cookies.BeforeIsTotal` | third/curl-8.4.0/lib/cookie.c:1295-1324 | The order of sending is a strict total order on cookies with different creation times. |
| `Cookies.OrderAgrees` | third/curl-8.4.0/lib/cookie.c:1287-1324 | The program sends two cookies in the order that section 5.4 of RFC 6265 asks for if and only if their paths differ in length, or the older one has the longer domain, or one of the same length and the longer name. |
| `Cookies.SortedFormSorts` | third/curl-8.4.0/lib/cookie.c:1451-1480 | Every list of distinct cookies has a sorted arrangement. |
| `Cookies.SortedIsUnique` | third/curl-8.4.0/lib/cookie.c:1295-1324 | A list has only one sorted arrangement, so the list sent does not depend on the sorting algorithm. |
| `CookieRules.OverlayRule` | third/curl-8.4.0/lib/cookie.c:1070-1092 | The comparison that protects a secure cookie is the intended rule, in which "/login" does not protect against "/loginhelper" and the root protects all, for all new paths if and only if the stored path is empty. |
| `CookieRules.OverlayDiffers` | third/curl-8.4.0/lib/cookie.c:1070-1092 | Program and rule differ exactly in two cases: the root stored as a slash does not keep out the empty path, and a path that continues the last name of the stored segment, in any case of its letters, is kept out. |
| `CookieRules.LoginHelperIsRefused` | third/curl-8.4.0/lib/cookie.c:1073-1092 | The new path that the comment calls allowed is refused. |
| `CookieRules.RootIsNotProtected` | third/curl-8.4.0/lib/cookie.c:294-325 | A secure cookie from the path attribute "x", stored as the root "/", does not keep out one from the path attribute "/", stored as the empty path. |
| `CookieRules.StoredMeaning` | third/curl-8.4.0/lib/cookie.c:1096-1172 | Storing a cookie leaves all cookies with other keys as they are and in order, and exactly one with its name, domain, tail matching and path, each up to case. |
| `CookieRules.CreationTimeIsKept` | third/curl-8.4.0/lib/cookie.c:1135-1155 | A cookie that replaces an old one takes over its creation time and nothing else; any other is stored as it is. |
| `CookieRules.RefusedExactly` | third/curl-8.4.0/lib/cookie.c:1051-1134 | A cookie is refused if and only if it is not live and would replace a live one, or neither it nor its origin is secure and it would lie over a secure one. |
| `CookieRules.SecureIsProtected` | third/curl-8.4.0/lib/cookie.c:1070-1092 | A secure cookie with a path is never replaced from an insecure origin by one that is not secure. |
| `CookieRules.MatchesMeaning` | third/curl-8.4.0/lib/cookie.c:1403-1420 | The tests for sending hold if and only if the connection is secure if the cookie is, its domain is absent, equals the host up to case or, tail-matching, lies above it at a dot and the host is no address, and its stored path is absent, the root or a prefix of the request path that ends there or before a slash. |
| `CookieRules.MatchIsIndexed` | third/curl-8.4.0/lib/cookie.c:279-289 | A cookie that matches a host is in the bucket of the host if it has a domain and, when tail-matching, that domain has a dot and is no address. |
| `CookieRules.DotIsNeeded` | third/curl-8.4.0/lib/cookie.c:230-251 | For a tail-matching cookie without a dot there is a hash with which a matching host is looked up in another bucket. |
| `DomainHash.LocalhostIsLost` | third/curl-8.4.0/lib/cookie.c:253-289 | With the hash of the program a cookie for "localhost" matches the host "a.localhost" but is in bucket 53, while the host is looked up in bucket 38. |
| `CookieBuckets.Bucket.RemoveExpired` | third/curl-8.4.0/lib/cookie.c:403-429 | The walk with `pv` leaves exactly the unexpired cookies of the bucket linked in order, and records the least expiry time met. |
| `CookieBuckets.Bucket.ClearSessions` | third/curl-8.4.0/lib/cookie.c:1537-1562 | The walk with `first` and `prev` leaves exactly the persistent cookies of the bucket linked in order. |
| `CookieBuckets.Bucket.FindPlace` | third/curl-8.4.0/lib/cookie.c:1051-1134 | The walk refuses exactly if some stored cookie refuses the new one, by overlay protection or because it is live, and otherwise finds the entry to replace and the last entry. |
| `CookieBuckets.Bucket.Put` | third/curl-8.4.0/lib/cookie.c:1135-1170 | The entry of the old version takes the new data with the old creation time, or a new entry is linked behind the last one; the other cookies stay in order. |
| `CookieBuckets.Bucket.Collect` | third/curl-8.4.0/lib/cookie.c:1407-1449 | The first 150 matching cookies of the bucket are collected, each once: all of them fit the request in host, path and security, and below the cap every cookie that fits is among them. |
| `CookieBuckets.SentMeaning` | third/curl-8.4.0/lib/cookie.c:1380-1489 | The sorted arrangement of what is collected has at most 150 cookies, longer paths before shorter ones, all unexpired and fitting the request, and below the cap all those there are. |
| `CookieJar.KeysAreUnique` | third/curl-8.4.0/lib/cookie.c:1096-1172 | In a jar that satisfies the invariant no two stored cookies, in whatever buckets, have the same key. |
| `CookieJar.StoredInv` | third/curl-8.4.0/lib/cookie.c:1096-1180 | Storing a cookie keeps the invariant: right bucket, unique keys and creation times, the expiry bound, and the count. |
| `CookieJar.IndexAgreesWithScan` | third/curl-8.4.0/lib/cookie.c:1390-1449 | Scanning the bucket of the host finds exactly the cookies, in order, that a scan of all buckets finds. |
| `CookieJar.SentFromWholeJar` | third/curl-8.4.0/lib/cookie.c:1380-1449 | If all stored cookies can be indexed, what the bucket of the host holds is what a scan of the whole jar finds among the unexpired cookies. |
| `CookieJar.Jar.RemoveExpired` | third/curl-8.4.0/lib/cookie.c:382-430 | Exactly the cookies with an expiry time in the past are removed from all buckets, also on the early exit; a full pass leaves the exact next expiry time. |
| `CookieJar.Jar.Store` | third/curl-8.4.0/lib/cookie.c:1051-1180 | A cookie is refused or stored in its bucket, in place of the one with its key whose creation time it keeps. |
| `CookieJar.Jar.Add` | third/curl-8.4.0/lib/cookie.c:1005-1180 | The jar after adding a parsed cookie: session cookies of a new session skipped, expired ones removed unless told not to, and the cookie refused or stored. |
| `CookieJar.Jar.ClearSess` | third/curl-8.4.0/lib/cookie.c:1528-1564 | Exactly the cookies without an expiry time are removed and counted off. |
| `CookieJar.Jar.ClearAll` | third/curl-8.4.0/lib/cookie.c:1496-1506 | The jar is empty and the invariant holds. |
| `CookieJar.Jar.GetList` | third/curl-8.4.0/lib/cookie.c:1380-1489 | The list sent is the sorted arrangement of the first 150 unexpired matching cookies of the bucket, and of the whole jar if all its cookies can be indexed. In terms of the cookies: each one sent is stored, unexpired, sent over a secure connection if it is secure, and fits host and path; below the cap every such cookie is sent; longer paths come first. |
| `Gzip.CheckHeader` | third/curl-8.4.0/lib/content_encoding.c:362-440 | The pointer walk gives the verdict of the specification on every byte string. |
| `Gzip.HeaderExtends` | third/curl-8.4.0/lib/content_encoding.c:362-440 | A verdict on a prefix stands when bytes follow; if the prefix was too short and the whole is good, the header ends beyond the prefix. |
| `Gzip.AcceptsMember` | third/curl-8.4.0/lib/content_encoding.c:370-440 | Every well-formed member header of RFC 1952, section 2.3, is accepted with its exact length, whatever follows. |
| `Gzip.HeaderIsMember` | third/curl-8.4.0/lib/content_encoding.c:362-440 | A header is accepted with a length if and only if the bytes start with a well-formed member header of that length. |
| `Gzip.RefusedExactly` | third/curl-8.4.0/lib/content_encoding.c:362-440 | Ten bytes or more are refused as a header if and only if no bytes after them can make them an accepted one, so a stream is never kept waiting for nothing. |
| `Gzip.ErrorsStand` | third/curl-8.4.0/lib/content_encoding.c:444-570 | An error on the bytes so far stands when bytes follow, so an early error is the error of the whole stream. |
| `Gzip.SplitDoesNotMatter` | third/curl-8.4.0/lib/content_encoding.c:444-570 | For every way of cutting a stream into writes, the outcome up to the first error is that of one single write. |
| `Gzip.TrailerExtends` | third/curl-8.4.0/lib/content_encoding.c:149-171 | While the trailer is incomplete, further bytes count against it and the first byte too many is an error. |
| `Gzip.MemberOutcome` | third/curl-8.4.0/lib/content_encoding.c:149-171 | After a well-formed header and data that the inflater ends with, eight more bytes close the stream, fewer are waited for, and one more is a write error. |
| `Gzip.ClosedExactly` | third/curl-8.4.0/lib/content_encoding.c:149-171 | A stream is closed without an error if and only if it is a well-formed member header, data that the inflater ends with, and eight bytes. |
| `Gzip.Writer.SkipHeader` | third/curl-8.4.0/lib/content_encoding.c:470-560 | However the header was split, the data handed on is exactly what follows the header, and it lies in the latest block. |
| `Gzip.Writer.ProcessTrailer` | third/curl-8.4.0/lib/content_encoding.c:149-171 | Trailer bytes are consumed up to the number missing; more are an error, and the stream closes when none is missing. |
| `Gzip.Writer.Write` | third/curl-8.4.0/lib/content_encoding.c:444-570 | Each write returns the code that one single write of all bytes so far would return, and leaves the state that it would leave. |
| `Eyeballs.AddrFirstMatch` | third/curl-8.4.0/lib/connect.c:176-185 | The search finds the first address of the family, or nothing if there is none. |
| `Eyeballs.AddrNextMatch` | third/curl-8.4.0/lib/connect.c:187-196 | The search finds the next address of the family after the current one. |
| `Eyeballs.WalksCover` | third/curl-8.4.0/lib/connect.c:758-795 | The two walks share no address, and when any version is allowed and the first address is IPv4 or IPv6 they cover all addresses of both families. |
| `Eyeballs.Baller.Initiate` | third/curl-8.4.0/lib/connect.c:452-490 | One attempt, at the current address, is recorded, and a new filter takes the place of the previous one, which is discarded exactly once. |
| `Eyeballs.Baller.Start` | third/curl-8.4.0/lib/connect.c:497-521 | The walk tries addresses in list order until one attempt can be made; it is done only when all have been tried. |
| `Eyeballs.Baller.StartNext` | third/curl-8.4.0/lib/connect.c:524-541 | After a failure the walk goes on; only for other than the first socket does it give up. |
| `Eyeballs.Baller.Connect` | third/curl-8.4.0/lib/connect.c:543-574 | A poll of an attempt that is neither connected nor failed keeps its filter and its good result if and only if its time is not over; an attempt is given up only after a failed poll or a reading of the clock at or past the end of its time, and the first filter seen connected connects the walk. |
| `Eyeballs.Connection.IsConnected` | third/curl-8.4.0/lib/connect.c:576-733 | Either one walk has won with a filter that has been seen up, or every attempt under way has been asked and none seen up. Then an attempt is under way and a second walk that has not started was not due, or both walks have been started and are exhausted with every filter failed or out of its own time, or the clock has shown a time past a limit during the call and the result is a timeout. |
| `Eyeballs.Connection.StartWaiting` | third/curl-8.4.0/lib/connect.c:656-680 | A waiting walk is started if and only if its delay is over or the walk it is a backup for is done. |
| `Eyeballs.Connection.StartConnect` | third/curl-8.4.0/lib/connect.c:739-832 | There is a walk for each allowed family that has addresses; it fails only if there is none, or if the clock has shown a time past a limit. |
| `Eyeballs.Connection.Clear` | third/curl-8.4.0/lib/connect.c:834-847 | Every filter but the installed one is discarded exactly once. |
| `Eyeballs.Connection.Connect` | third/curl-8.4.0/lib/connect.c:880-931 | Never gives up early: for the first socket, failure comes only after every address of both families has been attempted in order since the walks were set up and every filter made has failed a poll or run out of its own time, or as a timeout after a reading of the clock past one of the limits; the code is that of the first walk or a timeout. On success one filter that has been seen up is installed and no other lives. Otherwise no filter has been seen up, every attempt under way has been asked, and the second walk waits only before its delay. |
| `Eyeballs.Connection.Close` | third/curl-8.4.0/lib/connect.c:934-948 | Closing discards every filter, and a new connection can start. |
| `Resolver.InvStep` | third/curl-8.4.0/lib/asyn-thread.c:288-478 | Every step of thread and owner, the detaching of the thread after the exchange of the flag included, keeps the protocol and the accounting of the shared data and the result list. |
| `Resolver.NoUseAfterRelease` | third/curl-8.4.0/lib/asyn-thread.c:288-478 | A step that touches the shared data finds it alive if and only if it is not the detaching after the end of the thread. |
| `Resolver.SafeAlongRun` | third/curl-8.4.0/lib/asyn-thread.c:288-478 | In every interleaving a step touches released data exactly when it is the detaching, and since an exchange that found the flag unset the thread has entered its critical section and cleaned up. |
| `Resolver.OwnerIsOvertaken` | third/curl-8.4.0/lib/asyn-thread.c:374-407 | A run in which the owner reads the thread handle out of data that the thread has released. |
| `Resolver.Progress` | third/curl-8.4.0/lib/asyn-thread.c:374-478 | Some party can move exactly until the owner has gone or given up and the thread, if it was left alone, has ended. |
| `Resolver.ReleasedExactlyOnce` | third/curl-8.4.0/lib/asyn-thread.c:180-478 | Every interleaving that goes on as long as it can has at most 11 steps and releases the shared data exactly once; a result list is handed over or freed, and dropped if and only if the owner could not be signalled and asks for it. |
| `Resolver.ListIsDropped` | third/curl-8.4.0/lib/asyn-thread.c:265-277 | A run to its end in which a result list is neither handed over nor freed. |
| `ResolverObject.ThreadData.GetaddrinfoThread` | third/curl-8.4.0/lib/asyn-thread.c:288-336 | The thread, whatever its owner does between its accesses: it releases the data, once and with any list in it, exactly if it found the flag set, and otherwise leaves it to an owner that has not gone. |
| `ResolverObject.ThreadData.InitResolveThread` | third/curl-8.4.0/lib/asyn-thread.c:425-478 | Starting succeeds exactly if the name is copied and the thread created; otherwise everything is released again, once. |
| `ResolverObject.ThreadData.IsResolved` | third/curl-8.4.0/lib/asyn-thread.c:563-595 | Polling answers as soon as the flag is set; then the data is released once, with the list taken over if there was one, except when the owner could not be signalled. |
| `ResolverObject.ThreadData.WaitResolv` | third/curl-8.4.0/lib/asyn-thread.c:483-520 | Waiting takes the list over under the same condition if it is wanted, and else frees it; the data is released once. |
| `ResolverObject.ThreadData.DestroyAsyncData` | third/curl-8.4.0/lib/asyn-thread.c:374-407 | If the flag was set the data is released by the owner, after the thread has ended; if not, it is left to the thread, which will find the flag set, and it is told whether the thread has released it before the handle is read. |
| `ResolverObject.ThreadData.CancelResolve` | third/curl-8.4.0/lib/asyn-thread.c:374-407 | After a cancel no list is ever taken over, the flag is set, and the data has been released, once, if the thread has ended, and else not yet. |
| `Base64.TablesAgree` | third/curl-8.4.0/lib/base64.c:44-60 | The two tables are inverse to each other on the alphabet, and the decoding table marks every other character. |
| `Base64.Encode` | third/curl-8.4.0/lib/base64.c:187-255 | The loop with shifts and masks writes the encoding of RFC 4648, section 4, with or without padding. |
| `Base64.Decode` | third/curl-8.4.0/lib/base64.c:75-185 | Decoding succeeds exactly on nonempty strings of a length divisible by four with alphabet characters before at most two padding characters, and gives the bytes of the groups. |
| `Base64.DecodeEncode` | third/curl-8.4.0/lib/base64.c:75-255 | Decoding undoes encoding, for every nonempty byte string. |
| `Base64.EncodeDecode` | third/curl-8.4.0/lib/base64.c:75-255 | Encoding a decoded string gives it back if and only if its unused bits are zero (section 3.5 of RFC 4648). |
| `Base64.StandardAlphabet` | third/curl-8.4.0/lib/base64.c:46-47 | The standard table is an alphabet that the decoder inverts. |
| `CronText.CommandIsRead` | timed_task.cpp:62-68 | A line of five fields, a user of at most 32 word characters and a command is read back as that command. |
| `CronText.ScheduleIsRead` | timed_task.cpp:60-68 | The five fields and the user of a line, read by the groups of the expression, are those it was put together from, but for white space behind the fields. |
| `CronText.SpacedFields` | timed_task.cpp:62-62 | Any five nonempty fields of accepted characters with a space after each form the fields of a cron line. |
| `CronText.TaskNameMeaning` | timed_task.cpp:69-71 | The name found in a command lies between the first directory and the last suffix, as lazy and greedy matching choose. |
| `TimedTasks.NameIsRead` | timed_task.cpp:31-32 | The task name is read back from a printed command if and only if the rest of the command does not contain the suffix. |
| `TimedTasks.ImageIsLoaded` | timed_task.cpp:13-91 | What is written is loaded back as the same list, whatever other task files there are. |
| `TimedTasks.ImageIsScheduled` | timed_task.cpp:13-71 | The jobs in the cron file are one for each task of the list, in order, with exactly the schedule of the task, the user root, and a command on the file of the task; the settings before them are no jobs. |
| `TimedTasks.AddedMeaning` | timed_task.cpp:93-104 | Adding keeps ids unique, keeps all other tasks in order, and leaves exactly the new task under its id. |
| `TimedTasks.LoadList` | timed_task.cpp:60-88 | The loop over the lines loads exactly the tasks whose line matches and whose file exists, in line order. |
| `TimedTasks.TimedTaskSet.UpdateFile` | timed_task.cpp:13-42 | The cron file becomes the image of the list, and of the task files exactly those of the list are rewritten; if everything fits on its line, the jobs read back from the cron file are those of the tasks, each with its own schedule, user and file. |
| `TimedTasks.TimedTaskSet.AddTimedTask` | timed_task.cpp:93-104 | The task is added at the end in place of the one with its id, and the files follow. |
| `TimedTasks.TimedTaskSet.DelTimedTask` | timed_task.cpp:106-115 | The task is removed from list and cron file, the others stay in order, and all task files stay as they are. |
| `TimedTasks.TimedTaskSet.constructor` | timed_task.cpp:56-91 | A new set has the list that the files of an earlier run stand for, and writes it again. |
| `TimedTasks.RestartLoadsTheList` | timed_task.cpp:56-115 | After any additions and deletions a restart loads the list that the set had. |
| `TimedTasks.TimedTaskSet.TaskEnded` | smart_service.cpp:208-222 | After a run the stored count is updated, or the task deleted when its maximum is reached; updating a missing count throws. |
| `TimedTasks.QuotaIsKept` | smart_service.cpp:208-222 | Over any number of deliveries, each run to its end, the stored count rises by one per run below the maximum and the task goes exactly at the run that reaches it. |
| `TimedTasks.QuotaNeedsCount` | smart_service.cpp:208-222 | A task below its maximum can be run until the maximum is reached if and only if its count is stored or one run is all it is allowed. |
| `TimedRuns.DeliveryIsDelivered` | smart_service.cpp:208-222 | A run of the scheduler from the assignment of a stored task that enters `run` once, whatever calls come in between: the completion callback, called with every piece of feedback, acts exactly once and does to the list what one delivery does. |
| `TimedRuns.QuotaOverRuns` | smart_service.cpp:208-222 | Over any number of such runs the stored count rises by one per run and never passes the maximum, the task goes exactly at the run that reaches it, and the other tasks stay in order. |
| `TimedRuns.NoMoreDeliveries` | smart_service.cpp:208-222 | There are no more such runs than the maximum allows. |

## Left out

- Scheduler.InvStep: exceptions thrown by a device between setting its status to running and to stopped are not modelled; arguments and telemetry are taken to be well formed there. Clocks, sleeps, heartbeats and the wheel of MQTT messages are left out; published messages are the event log.
- Scheduler.InvStep: the second read in a double test of one wait is merged with the first.
- TaskObject.SharedTask.RunTask: what other threads do is a finite script, and a wait that is not over when the script ends is reported instead of being waited out; a device that has been polled until then is taken to arrive.
- SchedulerTermination.BoundedWork: failing polls are not counted, and an action that keeps being served by its device is taken to return.
- SchedulerReplacement.ChargingIsAlone: the accesses of the charging action itself to its device are not modelled, only that nobody else uses the devices.
- Bufq.Queue.Write: allocation never fails, so the out-of-memory results are not modelled.
- Bufq.Node.Append: the buffer of a chunk is a sequence of fixed length in a field that is assigned, not an array.
- Bufq.RunShared: stated for two queues, with any number of chunks held by others; each pass or read has a writer or reader of its own, which does anything.
- Bufq.PerformBeside: where a hard limit falls inside a chunk of which some bytes have been read, how much a write takes is bounded from both sides here; `Bufq.Queue.Write` says it exactly.
- Bufq.OnePlace: stated for one arbitrary address that the allocator watches, hence for every address.
- CookieBuckets.Bucket.Put: the data of a cookie is one value that is copied; its strings and the freeing of entries are not modelled.
- CookieJar.Jar.Add: the parsing of cookie lines and files, the public suffix list, and the limits on line length and number of cookies are left out; creation times are unbounded integers.
- CookieJar.Jar.GetList: `qsort` is not modelled; any sorting by the same order gives the same list (`Cookies.SortedIsUnique`). The prefix flags, which copying a cookie drops, are not modelled.
- CookieJar.IndexAgreesWithScan: cookies without a domain are excluded; the test for numeric addresses is a parameter, and so is the hash of an upper-case string, so that everything holds for any hash; `DomainHash` has the one of the program.
- Gzip.Writer.Write: zlib is an oracle whose word on the bytes so far stands when more come; errors of the next writer, raw deflate and the transparent mode of newer zlib versions are left out.
- Eyeballs.Connection.Connect: the outcome of creating and connecting a filter is arbitrary. The clock is any function of time that does not run backwards. The two slots are fields, and the loops over them are unrolled. Allocation never fails, and whether the operating system has reported a timeout is arbitrary.
- Eyeballs.Connection.Clear: freeing the record of a walk is not modelled, only the discarding of its filter.
- Resolver.InvStep: a critical section of the mutex is one step. Sockets are left out but for the failure to signal.
- Base64.Encode: allocation never fails, so the size check of 32-bit platforms is left out; strings are taken without their terminating NUL.
- TimedTasks.ImageIsLoaded: JSON is a record that the library writes and reads unchanged; failing file operations are left out. The user name, password and topic in the command are one string, which must not contain the suffix or a line break.
- TimedTasks.QuotaIsKept: the task delivered is the stored one; no other task with its id is added during a run.
- The MQTT client, curl transfers, OpenCV, logging and configuration are not part of this model; neither are proxies, TLS, the connection cache and alternative services.
