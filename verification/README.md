# Verified model of the ffnetwork core

A Dafny model of the parts of the library on which the rest depends, with proofs of what they promise. Each module is a
component:

- `Sha256Spec`, `Sha256`, `Sha256Constants`, `Primes`, `Sha256Words`, `Bits`,
  `Sha256Abc`: SHA-256 as FIPS 180-4 defines it, the streaming
  implementation in place over an algebra of word operations, the tables, and the 32-bit words with the macros. The end
  result is that the source computes the standard's function on any chunking of fewer than 2^29 bytes, and exactly where
  it stops doing so; a known answer is worked out from the definition.
- `TaskQueues`, `MessageLoop`, `MessageLoopImpl`: the delayed-task queues as a class; the message loop as a state
  machine in which posts, flushes, termination, disposal and the clock interleave; and loop objects that share the
  queues, whose methods are shown to take steps of that machine.
- `Runs`, `CurlClient`, `CurlHistory`: the protocol between client, tasks, message loop and libcurl as a state machine with re-entrant
  callbacks, the client object that takes its steps, and what has become of each request from what has happened.
- `PowerOfTwo`, `Message`: the growing message buffer, its growth policy and its round trip.
- `WaitableEvent`: the auto-reset event for any number of threads, as a state machine and as an object.
- `RunForTime`: the time budget of the Linux loop.
- `Integers`, `TimeUtils`, `TimeDelta`: cyclic 32-bit times and truncating 64-bit conversions.
- `UniqueObject`: single-owner handles.

`dafny verify dfyconfig.toml` checks everything.

Integers are unbounded; 32-bit and 64-bit wrap-around, truncation and sign extension are written out where the source has
them. The clock, memory allocation, epoll wake-ups, spurious wake-ups, completed transfers and what callbacks do are
inputs, and the results hold for all of them. One critical section of the source is one step of a state
machine; termination of a loop, which holds no lock, is two: the flag, and then the wake-up.

Where the code does less than its surroundings expect, the model follows the code and says when the expectation holds:

- The length in `final` has 32 bits, so that padding is standard if and only if the message is shorter than 2^29 bytes
  (`Sha256.PaddingIsStandardIffShort`).
- `RunForTime` on Linux subtracts all the time since its start at every wake-up, drops the fraction of a millisecond, and
  passes a 64-bit value as an `int`, so that it can return early, by its budget or by a wait that runs out.
  source/base/tests/message_loop_test.cpp:71-78 expects at least the duration; `RunForTime.OnTimeIff` says when that
  holds for the rest of a call, `RunForTime.CanEndEarlyIff` for which durations it always does, and
  `TenMillisecondsLastFour`, `TenMillisecondsRunOutAtSeven`, `FractionIsDropped` and `RunForeverWaits24Days` show each
  way in which it does not.
- A second request with the hash of a live one takes over its entry; `CurlClient.OwnedIffClean` and
  `CurlClient.CrashIsPossibleIff` say when that matters, and `CurlClient.CollidingHashesCrash` shows it. Yet no callback
  is ever delivered twice.
- A request can be lost without a callback; `CurlHistory.LostIff` says exactly when.
- Order keys repeat after 2^32 registrations; `MessageLoop.PostsRunInOrderIff` says exactly when posts run in order.
- `Terminate` on Linux moves the alarm to the current time, past the target of a task that is overdue
  (`MessageLoop.AlarmIsLateIff`, `MessageLoop.TerminateDelaysAlarm`).
- A message buffer asked for more than 2^31 bytes gets too few, and the value is written past its end
  (`PowerOfTwo.RoomIff`).
- A post can still register after the termination if and only if it has passed the check of `terminated_` before
  (`MessageLoop.RegistersLateIff`); in a loop that does not run, it then stays pending until some flush takes
  it (`MessageLoop.StaysPendingIff`).
- Move assignment of a handle leaves its traits behind (`UniqueObject.AtHomeIffMatching`).

## Model

| member | source | states |
|---|---|---|
| `Sha256Spec.HashBlocksConcat` | source/utils/sha256.cpp:54-89 | Folding the compression of section 6.2.2 of FIPS 180-4 over `a` and then over `b` is folding it over `a + b`, for every initial hash. |
| `Sha256.SHA256.Expand` | source/utils/sha256.cpp:63-68 | The array filled in place is the 64-word message schedule of the block. |
| `Sha256.SHA256.Shift` | source/utils/sha256.cpp:73-83 | The assignments that shift the eight words through each other in place are one round of section 6.2.2. |
| `Sha256.SHA256.RunRounds` | source/utils/sha256.cpp:72-84 | The loop is the fold of the 64 rounds over the schedule. |
| `Sha256.SHA256.TransformBlock` | source/utils/sha256.cpp:62-87 | One pass over a block is the functional compression of the hash by that block. |
| `Sha256.SHA256.Transform` | source/utils/sha256.cpp:54-89 | `transform` over n blocks is the fold of the compression over the first 64 n bytes. |
| `Sha256.SHA256.Init` | source/utils/sha256.cpp:91-102 | A stream that has absorbed nothing. |
| `Sha256.SHA256.Update` | source/utils/sha256.cpp:104-124 | Keeps the streaming invariant (the hash folds the whole blocks, the buffer holds the tail, the 32-bit counter is the byte count of the blocks modulo 2^32) and appends the message to what was absorbed; a message so long that the 32-bit sum of lengths wraps makes the stream forget the last 2^32 - len bytes instead. |
| `Sha256.TracksAcrossBlocks` | source/utils/sha256.cpp:115-123 | The invariant across a completed block: first the filled buffer, then the whole blocks, then the new tail, with the wrap of the counter. |
| `Sha256.SHA256.Finish` | source/utils/sha256.cpp:135-137 | The buffer becomes the tail, the marker byte, zeros and four big-endian length bytes. |
| `Sha256.SHA256.PadTail` | source/utils/sha256.cpp:131-137 | The one or two last blocks are the tail and the padding that belongs to the length of the whole message modulo 2^29. |
| `Sha256.SHA256.Final` | source/utils/sha256.cpp:126-142 | The digest is that of the blocks of the message padded with a length of 32 bits, whatever was absorbed. |
| `Sha256.SHA256.Output` | source/utils/sha256.cpp:139-141 | The eight words of the hash as big-endian bytes, in order. |
| `Sha256.PaddingIsStandardIffShort` | source/utils/sha256.cpp:131-137 | That padding is the one of section 5.1.1 of FIPS 180-4 if and only if the message is shorter than 2^29 bytes. |
| `Sha256.PaddingFillsBlocks` | source/utils/sha256.cpp:131-135 | The padded message is a whole number of blocks, one or two after the last whole block of the message. |
| `Sha256.PaddingIsInjective` | source/utils/sha256.cpp:126-138 | Equal padded messages are equal messages, for messages of every length. |
| `Sha256.MarkerIsLast` | source/utils/sha256.cpp:135-136 | Between the message and its length field only the marker is not zero, so that the end of the message can be found. |
| `Sha256.HashChunks` | source/utils/sha256.cpp:91-142 | `init`, `update` on each chunk, `final`: the digest depends on the concatenation alone; below 2^29 bytes in all it is the SHA-256 of the concatenation. |
| `Sha256.HexIsInjective` | source/utils/sha256.cpp:153-157 | Two digests that print alike are equal. |
| `Sha256.HexReadsBack` | source/utils/sha256.cpp:153-157 | Read as lower-case hexadecimal, most significant digit first, the string gives every byte back. |
| `Sha256.Sha256Hex` | source/utils/sha256.cpp:144-158 | The string is the hexadecimal digest of the input cut to a 32-bit length; below 2^29 bytes it is that of the SHA-256 of the input. |
| `Sha256Constants.RoundConstantsAreCubeRoots` | source/utils/sha256.cpp:41-52 | Every entry of `sha256_k` is the first 32 fractional bits of the cube root of the prime that section 4.2.2 assigns to it. |
| `Sha256Constants.InitialHashIsSquareRoots` | source/utils/sha256.cpp:92-99 | Every initial word is the first 32 fractional bits of the square root of the prime that section 5.3.3 assigns to it. |
| `Sha256Constants.CubeRootIsUnique` | source/utils/sha256.cpp:41-52 | Only one word is such a fraction, so that the table has no other entries than the standard allows. |
| `Sha256Constants.SquareRootIsUnique` | source/utils/sha256.cpp:92-99 | The same for the initial words. |
| `Primes.PrimesInOrder` | source/utils/sha256.cpp:41-52 | The primes meant are the first sixty-four: two, and from each to the next there is none in between. |
| `Sha256Words.F1` | source/utils/sha256.h:71 | The shift-and-or macro is the function of section 4.1.2 written with rotations. |
| `Sha256Words.F2` | source/utils/sha256.h:72 | The same for the second macro. |
| `Sha256Words.F3` | source/utils/sha256.h:73 | The same for the third macro. |
| `Sha256Words.F4` | source/utils/sha256.h:74 | The same for the fourth macro. |
| `Sha256Words.ChChooses` | source/utils/sha256.h:69 | Bit by bit, the choice is that of the second word where the first is set, and that of the third elsewhere. |
| `Sha256Words.MajVotes` | source/utils/sha256.h:70 | Bit by bit, where two of the words agree, the majority is theirs. |
| `Sha256Words.MajRotates` | source/utils/sha256.h:70 | Which two makes no difference. |
| `Sha256Words.UnpackOfPack` | source/utils/sha256.h:75-86 | Packing four bytes and unpacking the word gives the four bytes. |
| `Sha256Words.PackOfUnpack` | source/utils/sha256.h:75-86 | Unpacking a word and packing the bytes gives the word. |
| `Sha256Words.PackIsStandard` | source/utils/sha256.h:82-86 | The shifts and ors make the word whose number the four bytes write, most significant first, as section 3.1 of FIPS 180-4 has it. |
| `Sha256Words.UnpackIsStandard` | source/utils/sha256.h:75-81 | The shifts write the four big-endian bytes of the number of the word. |
| `Sha256Words.MacrosHashAsStandard` | source/utils/sha256.h:66-86 | The hash over the macros equals the hash over the functions and the byte order of the standard, for every message. |
| `Sha256Words.HashChunksAsStandard` | source/utils/sha256.cpp:54-142 | The whole streaming hash, with the macros and tables of the source, is SHA-256 of the concatenated chunks below 2^29 bytes. |
| `Sha256Words.Sha256AsStandard` | source/utils/sha256.cpp:144-158 | `sha256` prints the SHA-256 of its input, below 2^29 bytes. |
| `Sha256Abc.HashAbc` | source/utils/sha256.cpp:54-142 | The known answer: the definition, worked out through all 64 schedule words and 64 rounds, gives ba7816bf...f20015ad for the three bytes abc. |
| `Sha256Abc.Sha256OfAbc` | source/utils/sha256.cpp:144-158 | And `sha256`, with the macros and tables of the source, prints it. |
| `TaskQueues.LaterIsStrictTotalOrder` | source/base/messageloop/delayed_task.cpp:19-24 | `operator>` is irreflexive and transitive, and total on tasks with different orders. |
| `TaskQueues.CounterIncrements` | source/base/messageloop/message_loop_task_queues.h:108 | The n-th value of the wrapping 32-bit counter, in closed form, is its (n-1)-th value incremented. |
| `TaskQueues.OrderKeysIncrease` | source/base/messageloop/message_loop_task_queues.cpp:74-78 | The first 2^32 order keys increase strictly, across the wrap of the signed counter. |
| `TaskQueues.OrderKeysIncreaseIff` | source/base/messageloop/message_loop_task_queues.cpp:74-78 | The keys of the first n registrations increase if and only if n is at most 2^32. |
| `TaskQueues.OrderKeyResidue` | source/base/messageloop/message_loop_task_queues.cpp:74-78 | For any two registrations, their keys compare as their indices do modulo 2^32. |
| `TaskQueues.FlushEntry` | source/base/messageloop/message_loop_task_queues.cpp:105-130 | A flush appends to the invocations exactly the due tasks in (target, order), or the first of them, leaves exactly the rest, and arms the alarm for the earliest of the rest. |
| `TaskQueues.Rearm` | source/base/messageloop/message_loop_task_queues.cpp:125-129 | The wake-up sent is the earliest pending target, or the end of time for an empty queue. |
| `TaskQueues.Top` | source/base/messageloop/message_loop_task_queues.cpp:209-222 | A pending task that is later than no other. |
| `TaskQueues.SingleTakesFirstOfAll` | source/base/messageloop/message_loop_task_queues.cpp:121-123 | A single flush takes exactly the first of what a full flush at the same time would take, if anything, when only one task can come first. |
| `TaskQueues.FlushIsDeterminedIff` | source/base/messageloop/message_loop_task_queues.cpp:100-131 | A flush has one possible outcome if and only if no two different due tasks share (target, order); for a single flush, if and only if there is no second one to come first. |
| `TaskQueues.MessageLoopTaskQueues.CreateTaskQueue` | source/base/messageloop/message_loop_task_queues.cpp:37-48 | A new id with an empty queue; every other queue unchanged. |
| `TaskQueues.MessageLoopTaskQueues.SetWakeable` | source/base/messageloop/message_loop_task_queues.cpp:173-180 | Sets the wakeable once and refuses the second time. |
| `TaskQueues.MessageLoopTaskQueues.RegisterTask` | source/base/messageloop/message_loop_task_queues.cpp:69-92 | Adds one task whose order is the key of this registration, and wakes at the earliest pending target; every other queue unchanged. |
| `TaskQueues.MessageLoopTaskQueues.GetTasksToRunNow` | source/base/messageloop/message_loop_task_queues.cpp:100-131 | A flush of that queue, with the rest and the alarm as stated for `FlushEntry`; every other queue unchanged. |
| `TaskQueues.MessageLoopTaskQueues.DisposeTasks` | source/base/messageloop/message_loop_task_queues.cpp:61-65 | Empties that queue and touches neither its alarm nor another queue. |
| `MessageLoop.InvStep` | source/base/messageloop/message_loop_impl.cpp:37-117 | Every step of posting, registering, flushing, executing, leaving, disposing and terminating keeps the invariant. |
| `MessageLoop.RunInv` | source/base/messageloop/message_loop_impl.cpp:37-117 | The invariant holds in every state of every interleaving. |
| `MessageLoop.EveryPostIsInOnePlace` | source/base/messageloop/message_loop_impl.cpp:37-117 | Each post is exactly one of rejected, between check and registration, or registered; a registered one is exactly once in queue, batch, executed or discarded. |
| `MessageLoop.NothingRunsTwice` | source/base/messageloop/message_loop_impl.cpp:104-117 | No task runs twice and none before its target. |
| `MessageLoop.DiscardsAreJustified` | source/base/messageloop/message_loop_impl.cpp:74-91 | A discarded task was not due at the clock of the last flush before the discard, or was registered after that flush. |
| `MessageLoop.PendingTogetherRunInOrder` | source/base/messageloop/message_loop_task_queues.cpp:69-131 | Of two tasks ever pending together, the smaller (target, order) executes first, across all flushes of either kind. |
| `MessageLoop.RunsFirstIff` | source/base/messageloop/message_loop_task_queues.cpp:69-131 | Of two tasks registered one after the other that have both run, the second ran first if and only if the first was still pending at its registration and is the later by (target, order). |
| `MessageLoop.PostsRunInOrderIff` | source/base/messageloop/message_loop_impl.cpp:37-46 | Two posts from any threads run in the order of their registrations, if and only if not: the first was still pending then, and the second has an earlier target, or the same and a smaller index modulo 2^32. For any number of registrations. |
| `MessageLoop.PostsRunInPostingOrder` | source/base/messageloop/task_runner.cpp:19-29 | Tasks posted for times that do not decrease run in posting order across all flushes, unless they are pending together on two sides of a multiple of 2^32 registrations. |
| `MessageLoop.SameKeyRunsEitherWay` | source/base/messageloop/message_loop_task_queues.cpp:74-78 | Two runs, in different orders, of two tasks posted 2^32 registrations apart for the same time. |
| `MessageLoop.PendingOrdersDifferIff` | source/base/messageloop/message_loop_task_queues.cpp:74-78 | In every state of every run the pending tasks have different orders if and only if no two of them were registered a multiple of 2^32 registrations apart. |
| `MessageLoop.NextFlushIsDeterminedIff` | source/base/messageloop/message_loop_task_queues.cpp:100-131 | In every state of every run, a full flush has one possible outcome if and only if no two due tasks with the same target were registered a multiple of 2^32 registrations apart. |
| `MessageLoop.PendingOrdersDiffer` | source/base/messageloop/message_loop_task_queues.cpp:74-78 | In particular within the first 2^32 registrations of a process. |
| `MessageLoop.WrappedCounterReversesOrder` | source/base/messageloop/message_loop_task_queues.cpp:74-78 | A run in which the registration after the 2^32nd overtakes the one before it, so that the bound is needed. |
| `MessageLoop.AlarmIsLateIff` | source/base/messageloop/message_loop_task_queues.cpp:80-92 | In every state of every run, the last wake-up time sent is no later than any pending target, except if and only if the last to send one was the loop itself, terminating after that target. |
| `MessageLoop.TerminateDelaysAlarm` | source/base/messageloop/message_loop_impl_linux.cpp:65-68 | A run of five events in which it is later. |
| `MessageLoop.AlarmIsExact` | source/base/messageloop/message_loop_task_queues.cpp:111-130 | In runs without disposal, self-wake-ups and single flushes, it is the earliest pending target, or the end of time when all are gone. |
| `MessageLoop.RegistersLateIff` | source/base/messageloop/message_loop_impl.cpp:41-45 | After any run that has terminated the loop, a post that is not registered can still be registered if and only if it had passed the check. |
| `MessageLoop.RegisteredAfterTermination` | source/base/messageloop/message_loop_impl.cpp:41-45 | A run in which that happens; starting the loop again then does nothing. |
| `MessageLoop.StaysPendingIff` | source/base/messageloop/message_loop_impl.cpp:69-91 | What is pending in a terminated loop that does not run stays pending, through starts and everything else, exactly until a flush takes it. |
| `MessageLoop.IdleFlushTakesIff` | source/base/messageloop/message_loop_impl.cpp:98-117 | And a full flush, which does not look at the termination, takes it if and only if it is due. |
| `MessageLoopImpl.MessageLoopImpl.constructor` | source/base/messageloop/message_loop_impl.cpp:28-32 | A new queue with this loop as its wakeable, and an initial state of the machine; the queues of other loops are as before. |
| `MessageLoopImpl.MessageLoopImpl.Close` | source/base/messageloop/message_loop_impl.cpp:78-79 | The last flush and the disposal: the two closing steps of the machine, after which the queue is empty. |
| `MessageLoopImpl.MessageLoopImpl.PostTask` | source/base/messageloop/message_loop_impl.cpp:37-46 | Rejects after termination and registers otherwise, also while a batch runs and after other loops have registered tasks; the steps are those of the state machine. |
| `MessageLoopImpl.MessageLoopImpl.DoTerminate` | source/base/messageloop/message_loop_impl.cpp:93-96 | Sets the flag and then, on Linux, the alarm to now: one or two steps of the machine. |
| `MessageLoopImpl.MessageLoopImpl.FlushTasks` | source/base/messageloop/message_loop_impl.cpp:104-117 | Runs exactly the closures that a flush of the queue takes, in that order, whatever the closures and other threads post or terminate meanwhile; what the flush left stays pending. |
| `MessageLoopImpl.MessageLoopImpl.Perform` | source/base/messageloop/message_loop_impl.cpp:37-96 | A post names the closure and registers it unless the loop is terminated; a termination terminates; time passes as given; nothing else changes. |
| `MessageLoopImpl.MessageLoopImpl.Fire` | source/base/messageloop/message_loop_impl_linux.cpp:75-79 | When the timer fires, exactly what is due by then runs, after what was posted before, and the effects are those of the given actions. |
| `MessageLoopImpl.MessageLoopImpl.Serve` | source/base/messageloop/message_loop_impl_linux.cpp:38-62 | One full flush for each firing of the timer; what was pending and due has run by the first. |
| `MessageLoopImpl.MessageLoopImpl.DoRun` | source/base/messageloop/message_loop_impl.cpp:69-91 | Does nothing on a terminated loop. Otherwise starts; makes one full flush for each firing, by which what was pending and due has run before it leaves; leaves; makes one more flush; and ends with a disposal and an empty queue. It is terminated if and only if it ran without a time limit or something terminated it. |
| `MessageLoopImpl.ReachedByRun` | source/base/messageloop/message_loop_impl.cpp:37-117 | Whatever a loop object has been through is a run of the machine, so that all the theorems about runs hold of it. |
| `MessageLoopImpl.TwoLoops` | source/base/messageloop/message_loop_task_queues.cpp:27-48 | Two loops on the one set of queues of the process stay valid, whatever either of them posts, runs and disposes of. |
| `CurlClient.InvStep` | source/net/curl_client.cpp:93-121 | Every step of client, message loop, libcurl and callbacks keeps the invariant that ties map, deliveries and the request in progress together. |
| `CurlClient.RunInv` | source/net/curl_client.cpp:93-293 | The invariant holds in every state of every run. |
| `CurlClient.DeliveredAtMostOnce` | source/net/request_task_impl.cpp:155-181 | The completion of a task is delivered at most once in every run, even when hashes collide. |
| `CurlClient.OwnedIffClean` | source/net/curl_client.cpp:93-107 | Every handle in the multi belongs to a task stored under its own hash throughout a run, if and only if no task is made under the hash of a task whose handle is in the multi. |
| `CurlClient.CleanRunsAreOwned` | source/net/curl_client.cpp:158-200 | In such a run, every finished transfer is also reported to its own task and no null task is used. |
| `CurlClient.FreshHashesSuffice` | source/net/curl_client.cpp:158-200 | With hashes that are new when a task is made, nothing crashes, every transfer is reported to its own task, and a completed task is in neither the map nor the multi, except the one whose callback is running. |
| `CurlClient.CrashIsPossibleIff` | source/net/curl_client.cpp:184-192 | From any state that the invariant allows, some continuation without another unclean making uses a null task, if and only if some handle in the multi is without its task once the callback in progress has returned. |
| `CurlHistory.DeliveredIff` | source/net/request_task_impl.cpp:155-181 | In every run, a callback has been delivered if and only if some step delivered it: a cancellation to the task then stored under the hash, or a finished transfer to the task stored under the hash of the handle. |
| `CurlHistory.CancellationIsDelivered` | source/net/curl_client.cpp:271-282 | Whoever is stored under a hash when its cancellation runs has, ever after, had exactly one callback, as cancelled. |
| `CurlHistory.CompletionIsDelivered` | source/net/curl_client.cpp:168-192 | The task of an owned handle whose transfer is done has, ever after, had exactly one callback, for that transfer. |
| `CurlHistory.InMultiIff` | source/net/curl_client.cpp:284-293 | In every run, a handle is in the multi if and only if a start of its hash added it and no end of its callback, and no end of the client, has removed it since. |
| `CurlHistory.StoredIff` | source/net/curl_client.cpp:93-107 | In every run, a task is stored if and only if it was made and since then no other was made under its hash, its hash was not erased and the client not destroyed. |
| `CurlHistory.LostIff` | source/net/curl_client.cpp:93-121 | In every run, a task that was made is neither stored nor delivered, and never will be, if and only if some step has lost it: another was made under its hash, or the client was destroyed, before its callback; or a callback ended in which it was made under the hash of the task called. |
| `CurlHistory.LostInCallback` | source/net/curl_client.cpp:271-282 | A run of five events, each making clean, in which a task made in the callback of another with the same hash is lost. |
| `CurlClient.CollidingHashesCrash` | source/net/curl_client.cpp:104-104 | For every hash, a run of two requests that share it: the first transfer is reported to the second task and the second transfer finds no task. |
| `CurlClient.CurlClient.TaskWithRequest` | source/net/curl_client.cpp:93-107 | Stores the task under its hash, over any earlier one. |
| `CurlClient.CurlClient.RequestTaskStart` | source/net/curl_client.cpp:117-121 | Posts the start of the hash. |
| `CurlClient.CurlClient.RequestTaskCancel` | source/net/curl_client.cpp:111-115 | Posts the cancellation of the hash. |
| `CurlClient.CurlClient.StartRequest` | source/net/curl_client.cpp:284-293 | Adds the handle of the task found under the hash, if any. |
| `CurlClient.CurlClient.CancelRequest` | source/net/curl_client.cpp:271-282 | Delivers the cancellation, runs a callback that may make, resume and cancel tasks, then removes the handle found under the hash and erases it. |
| `CurlClient.CurlClient.HandleDone` | source/net/curl_client.cpp:168-192 | Delivers the completion to the task found under the hash of the handle, runs such a callback, then removes the handle and erases the hash; fails where the source uses a null task. |
| `PowerOfTwo.SmearFills` | source/base/messageloop/message.cpp:12-18 | The five shift-and-or steps set exactly the bits below the highest set bit. |
| `PowerOfTwo.NextIsLeastPower` | source/base/messageloop/message.cpp:7-21 | From 1 to 2^31, the least power of two that is large enough; the same as rounding up by halving. |
| `PowerOfTwo.LeastPowerIsLeast` | source/base/messageloop/message.cpp:7-21 | No smaller power of two would do. |
| `PowerOfTwo.NextIsLargeEnoughIff` | source/base/messageloop/message.cpp:40-46 | The capacity asked for is large enough if and only if the request is at most 2^31. |
| `PowerOfTwo.RoomIff` | source/base/messageloop/message.cpp:74-82 | After the growth there is room for the value behind the data if and only if the request is at most 2^31. |
| `PowerOfTwo.NextIsZeroIff` | source/base/messageloop/message.cpp:40-46 | The allocator is asked for no bytes at all if and only if the request modulo 2^32 is above 2^31. |
| `Message.Message.constructor` | source/base/messageloop/message.cpp:23 | An empty message. |
| `Message.Message.ResetRead` | source/base/messageloop/message.cpp:36 | Reading starts over; the contents stay. |
| `Message.Message.Resize` | source/base/messageloop/message.cpp:48-72 | A buffer of the new size with what fits of the old contents, or no change when one or more bytes are refused. |
| `Message.Message.Reserve` | source/base/messageloop/message.cpp:40-46 | Nothing if the request fits; otherwise a buffer of the size that `NextOfTwoSize` gives. |
| `Message.Message.PrepareEncode` | source/base/messageloop/message.cpp:74-82 | Advances the data length; up to requests of 2^31 there is room behind the data in a capacity that has at least doubled, and beyond that there is not. |
| `Message.Message.Encode` | source/base/messageloop/message.h:42-51 | Appends the value to the values held, or changes nothing if one or more bytes are refused; writes past the buffer if and only if the request is granted and above 2^31. |
| `Message.Message.Decode` | source/base/messageloop/message.cpp:84-92 | Succeeds if and only if the capacity allows it, and within the data returns the bytes at the read position. |
| `Message.GrowCapacity` | source/base/messageloop/message.cpp:74-82 | Every value at least doubles the capacity. |
| `Message.AtMost32Values` | source/base/messageloop/message.cpp:40-46 | A message accepts at most 32 values. |
| `Message.SingleBytesDouble` | source/base/messageloop/message.cpp:74-82 | Each single byte doubles the capacity: after n of them it is 2^(n-1). |
| `Message.SingleBytesAreAccepted` | source/base/messageloop/message.cpp:40-46 | 32 single bytes are all accepted, so that the bound is exact. |
| `Message.DecodeAll` | source/base/messageloop/message.h:57-67 | Decoding with the types of the encoded values gives these values in order and ends at the end of the data. |
| `Message.RoundTrip` | source/base/messageloop/message.h:42-67 | For all values and all refusals of memory, exactly the accepted values come back, byte for byte, and nothing is left to read. |
| `WaitableEvent.SignalsBalance` | source/base/thread/waitable_event.cpp:11-62 | At every moment of every interleaving, the times the event went up are the successful waits, plus one if it is still up. |
| `WaitableEvent.NoSignalIsTakenTwice` | source/base/thread/waitable_event.cpp:17-62 | Between two successful waits the event went up again. |
| `WaitableEvent.OutcomeIff` | source/base/thread/waitable_event.cpp:11-62 | A waiter that looks at the event succeeds if and only if it is up, and takes it down; it times out if and only if the condition variable says so, or it wakes at its deadline or later with the event down; otherwise it sleeps on with its deadline, and nothing else changes. |
| `WaitableEvent.TimeoutsAreHonest` | source/base/thread/waitable_event.cpp:35-54 | A wait that times out takes no signal, and has lasted at least its timeout. |
| `WaitableEvent.DeadlineDoesNotDrift` | source/base/thread/waitable_event.cpp:32-58 | Every sleep of a timed wait, after any number of wake-ups, aims at exactly start + timeout. |
| `WaitableEvent.RunInv` | source/base/thread/waitable_event.cpp:25-62 | No sleep can expire before its first deadline, in every state of every run. |
| `WaitableEvent.AfterIsRun` | source/base/thread/waitable_event.cpp:11-62 | Whatever an event object has been through is a run, so that the theorems about runs hold of it. |
| `WaitableEvent.AutoResetWaitableEvent.Signal` | source/base/thread/waitable_event.cpp:11-15 | The signal step of the machine. |
| `WaitableEvent.AutoResetWaitableEvent.Wait` | source/base/thread/waitable_event.cpp:17-23 | The loop is a sequence of machine steps that ends in taking the signal, at once if it is up, or leaves the thread blocked with the event down. |
| `WaitableEvent.AutoResetWaitableEvent.WaitWithTimeout` | source/base/thread/waitable_event.cpp:25-62 | The loop is a sequence of machine steps that ends in taking the signal, at once if it is up, or in a timeout no earlier than start + timeout, or leaves the thread asleep before its first deadline with the event down. |
| `RunForTime.RunForTime` | source/base/messageloop/message_loop_impl_linux.cpp:32-63 | The time left at each wait; that expired tasks are run at exactly the wake-ups by the timer; and that the loop goes on after exactly the wake-ups that neither fail nor time out nor terminate it and leave some time. |
| `RunForTime.WaitIsWithinBudget` | source/base/messageloop/message_loop_impl_linux.cpp:38-61 | For durations that fit an `int`, no wait is longer than the duration less the whole milliseconds elapsed. |
| `RunForTime.EndsInTime` | source/base/messageloop/message_loop_impl_linux.cpp:58-61 | The loop has stopped at the first wake-up at which the duration has passed. |
| `RunForTime.BudgetOnTimeIff` | source/base/messageloop/message_loop_impl_linux.cpp:58-61 | For a given duration and any wake-ups so far, the next one that uses up the budget cannot come too early if and only if none of them came a millisecond or more after the start and the duration is whole milliseconds. |
| `RunForTime.TimeoutOnTimeIff` | source/base/messageloop/message_loop_impl_linux.cpp:40-52 | The next `epoll_wait` cannot run out too early if and only if it has no end, or what it gets is not cut, only the last wake-up was subtracted, and that came as far into its millisecond as the duration ends in its own. |
| `RunForTime.OnTimeIff` | source/base/messageloop/message_loop_impl_linux.cpp:38-62 | Both exits: the loop cannot return too early by itself if and only if all wake-ups so far came within the first millisecond, the duration is whole milliseconds, and epoll does not get a part of it only. |
| `RunForTime.LastsItsDuration` | source/base/messageloop/message_loop_impl_linux.cpp:32-63 | A call under that condition that neither a failure nor `Terminate` ends lasts at least its duration. |
| `RunForTime.CanEndEarlyIff` | source/base/messageloop/message_loop_impl_linux.cpp:32-63 | Before the call: some sequence of wake-ups ends it early if and only if the duration is positive and not exactly one millisecond. |
| `RunForTime.WaitsForeverIff` | source/base/messageloop/message_loop_impl_linux.cpp:40-41 | Epoll is given a negative time, and waits without end, if and only if the time left is in the upper half of its 2^32 values. |
| `RunForTime.TenMillisecondsLastFour` | source/base/messageloop/message_loop_impl_linux.cpp:58-61 | Ten milliseconds with a timer firing every millisecond are over after four. |
| `RunForTime.TenMillisecondsRunOutAtSeven` | source/base/messageloop/message_loop_impl_linux.cpp:40-61 | Ten milliseconds with the timer firing at three and at four: the third wait runs out at seven. |
| `RunForTime.FractionIsDropped` | source/base/messageloop/message_loop_impl_linux.cpp:36-41 | With no wake-up at all, 10.9 milliseconds can be over after ten. |
| `RunForTime.RunForeverWaits24Days` | source/base/messageloop/message_loop_impl_linux.cpp:30-41 | What is left of the longest duration as the `int` that epoll gets. |
| `TimeUtils.TimeDiffIsTrueIff` | source/utils/time_utils.cpp:42 | The difference of two stamps is the true one if and only if that fits 32 signed bits, and is always off by whole turns. |
| `TimeUtils.ComparesTrueTimes` | source/utils/time_utils.h:38-49 | For true times less than 2^31 apart, later, later-or-equal, minimum and maximum of the stamps are those of the true times. |
| `TimeUtils.TimeIsLaterIff` | source/utils/time_utils.cpp:32-40 | For any two times: later exactly when less than half a turn ahead on the circle. |
| `TimeUtils.TimeIsBetweenIff` | source/utils/time_utils.cpp:24-30 | Between exactly when (m - e) mod 2^32 is at most (l - e) mod 2^32. |
| `TimeUtils.BetweenTrueTimes` | source/utils/time_utils.cpp:24-30 | Within one turn from the first true time, between is the true comparison. |
| `TimeUtils.HalfATurnIsNeither` | source/utils/time_utils.cpp:32-40 | Exactly 2^31 apart, neither time is later, so that the bound is needed. |
| `TimeDelta.QuotOfQuot` | source/base/time/time_delta.h:45-48 | Dividing twice toward zero is dividing once by the product, for negative numbers too. |
| `TimeDelta.ConversionsTruncateOnce` | source/base/time/time_delta.h:45-48 | Milliseconds and seconds are one truncating division of the nanoseconds by 10^6 and 10^9. |
| `TimeDelta.ConversionsFitIff` | source/base/time/time_delta.h:45-48 | A number is the microseconds, milliseconds or seconds of a difference if and only if that many units fit, leaving less than one on the same side of zero. |
| `TimeDelta.FromSecondsFitsIff` | source/base/time/time_delta.h:29-40 | A count of seconds overflows if and only if its nanoseconds do not fit 64 bits. |
| `TimeDelta.FromUnitsFitIff` | source/base/time/time_delta.h:32-37 | The same for microseconds and milliseconds. |
| `TimeDelta.SecondsRoundTrip` | source/base/time/time_delta.h:29-48 | From seconds and back is the identity; to seconds and back drops exactly the fraction. |
| `TimeDelta.TimespecRoundTrip` | source/base/time/time_delta.h:90-100 | `FromTimespec(ToTimespec(d))` is `d` for every 64-bit `d`, and no step of it overflows. |
| `TimeDelta.TimespecIsTruncated` | source/base/time/time_delta.h:94-100 | The timespec has the whole seconds that fit, and the rest in nanoseconds. |
| `TimeDelta.TimespecIsProperIff` | source/base/time/time_delta.h:94-100 | The nanoseconds are in [0, 10^9) if and only if `d` is not negative or is a whole number of seconds. |
| `UniqueObject.InvStep` | source/base/unique_object.h:30-83 | Every operation keeps every value in one place, and stops the program exactly when a handle is reset to the value it holds. |
| `UniqueObject.EveryValueIsInOnePlace` | source/base/unique_object.h:30-83 | In every run, the handles that hold a value, the caller it was released to and the times it was freed add up to one, and to zero before it was handed over. |
| `UniqueObject.NothingLeaks` | source/base/unique_object.h:39-83 | When all handles are gone, every value was freed once, or was released and not freed. |
| `UniqueObject.StepMoves` | source/base/unique_object.h:30-83 | Where every operation leaves the values, the traits and the freed value, and that no other handle changes: moves take over, a swap exchanges, a release hands over, a reset and the end free. |
| `UniqueObject.AtHomeIffMatching` | source/base/unique_object.h:31-51 | Every value stays with the traits it was first given, and is freed by them, if and only if no move assignment, and no reset to or construction from a released value, brings a value to a handle with other traits. |
| `UniqueObject.UniqueObject.constructor` | source/base/unique_object.h:30-34 | A handle that holds what the caller gave it, with its traits. |
| `UniqueObject.UniqueObject.FreeIfNecessary` | source/base/unique_object.h:78-83 | Frees what the handle holds with its own traits, once, and leaves it invalid. |
| `UniqueObject.UniqueObject.Move` | source/base/unique_object.h:36-37 | The new handle has value and traits, the other is invalid. |
| `UniqueObject.UniqueObject.MoveAssign` | source/base/unique_object.h:41-44 | The move step of the world, also from a handle to itself. |
| `UniqueObject.UniqueObject.Reset` | source/base/unique_object.h:46-51 | The reset step of the world; refuses where the check stops the program. |
| `UniqueObject.UniqueObject.Swap` | source/base/unique_object.h:53-60 | The swap step of the world, also of a handle with itself. |
| `UniqueObject.UniqueObject.Release` | source/base/unique_object.h:62-66 | Returns the value, which now belongs to the caller. |
| `UniqueObject.UniqueObject.Destroy` | source/base/unique_object.h:39 | The handle is gone and what it held has been freed. |

## Left out

- Sha256.SHA256.Transform: a call covers at most 2^31 bytes, because the source computes block offsets in an `int`, which has no defined value beyond that.
- Sha256.SHA256.Update: leaves out messages for which a block offset would overflow, from 2^31 + 128 bytes to 2^32, less what is buffered; above that the wrapped sum returns early, and is modelled.
- Sha256.HashChunks: chunks shorter than 2^31 bytes, for the same reason.
- Message.Message.Encode: promises nothing about the message after it has written past its buffer, or was refused no bytes at all (`PowerOfTwo.NextIsZeroIff`), when `realloc` may have freed the buffer; `RoundTrip` is a caller that looks at the size first.
- Message.Message.Decode: says nothing about bytes read past the written data, which the source leaves unspecified; decodes that do not mirror the encodes are otherwise as in the source.
- Message.RoundTrip: values of at least one byte, as every object has; `Serialize` and `Deserialize` of user classes are not modelled.
- TaskQueues.Top: the priority queue is a multiset from which a smallest element is taken; the heap inside it is library code.
- MessageLoopImpl.MessageLoopImpl.FlushTasks: a whole post of another thread falls between two closures or into one; posts cut in two by another step, and other loops acting during a call, are steps of the state machine only.
- MessageLoop.PendingTogetherRunInOrder: a closure that starts a flush of its own while a batch is running is not modelled.
- CurlClient.CurlClient.HandleDone: models one completed transfer; the loop over several is a sequence of such calls.
- CurlClient.DeliveredAtMostOnce: says nothing about a callback ever being delivered: the message loop may drop a posted start, and the destructor drops tasks without a callback.
- CurlClient.OwnedIffClean: a task whose entry is overwritten is taken to be kept alive by its caller, with its handle; freeing it while curl uses it is not modelled.
- WaitableEvent.TimeoutsAreHonest: times are unbounded integers, so that overflow of `start + timeout` near the end of 64-bit time is not modelled.
- RunForTime.RunForTime: what epoll reports and the clock then are input; elapsed times are unbounded, so that overflow of the clock is not modelled.
- Task observers, `HasPendingTask`, `GetNumPendingTasks`: they read the queues or run after a closure, and change nothing that the results speak of.
- `Dispose` of a whole queue and the destructor of the loop: no result speaks of a loop after its end.
- libcurl options, metrics, waiting, `ConvertCurlCode`, `PerformRequest` as one call, and the reference count of `curl_global_init`.
- epoll, timerfd, CoreFoundation and thread-local plumbing: foreign calls.
- Data races within a critical section and accesses without the client mutex: each operation is one atomic step.
- `RequestImpl::hash`: an opaque number here; which requests share a hash is not modelled.
- Floating-point conversions and operators of `TimeDelta`, `TimePoint`, logging, response accessors, the command-line tool and build files.
