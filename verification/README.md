# Verification of the lock-free core

This project models the lock-free and blocking core of the library under
`src/ustevent/core` in Dafny and proves what it promises. `dafny verify dfyconfig.toml`
checks all of it.

Concurrent components are transition systems. A state holds the shared memory and one program
counter per thread, a step is one atomic load, store, exchange or compare-and-swap (or one
stretch under a mutex), and a theorem about every `Reachable` state is a theorem about every
interleaving. Where the code also has a sequential life as an object, there is a class with its
fields and loops, proved against the same specification.

| files | component |
|---|---|
| `RingProtocol`, `RingInvariant`, `RingSafety`, `RingLimits`, `RingCalls`, `PackedWord` | `MpscRingBuffer` step by step: any number of producers, one consumer |
| `RingBuffer` | `MpscRingBuffer` as an object, refining the transition system |
| `Framing`, `FrameStores`, `TaskStream` | `ContextTaskQueue`: the record format, the stores of push, and parsing what the ring hands out |
| `TaskProtocol`, `TaskLimits`, `TaskCalls`, `TaskQueue` | `ContextTaskQueue` in any interleaving, and as an object |
| `WakeUp`, `WakeUpLimits` | the ring together with `onNotified` / `onSuspended` / `_launchPostedTask` |
| `EndToEnd`, `EndToEndSteps`, `EndToEndLimits` | the task queue and the wake-up handshake over one ring, from push to perform |
| `ListProtocol`, `ListSafety`, `ListCalls` | `ListQueue` and `ListNodeAllocator` in any interleaving |
| `ListQueue` | the same two as linked nodes in the heap |
| `ThreadLocal` | `ObjectScopedThreadLocalStorage` |
| `Semaphore`, `Barrier` | `BasicSemaphore`, `BasicBarrier` |
| `AppendIndex`, `AppendOnlyArray`, `AppendCalls` | `AppendOnlyArray`: index arithmetic, concurrent append, and the object |

The modules named `Calls` are about single operations in the middle of everything else: what an
operation answers and why (in terms of what it was called with), that each of its own steps
brings it closer to its end unless it waits for a thread that does not itself wait, and what it
comes to when nobody disturbs it.

## How the ring is modelled

A run carries a log of claims in the order of the successful compare-and-swaps, each with its
lap, its range and the bytes its producer means to write. `Config.modulus` says how the wrap
counter of the packed word counts:

* `1`: the counter never changes. This is the code as it stands, because `_setWrapCounter`
  takes its offset by value (`PackedWord.CounterNeverMoves`).
* `0x8000_0000`: the 31 bits of the layout comment.
* `0`: an unbounded counter.

A run fits if every compare-and-swap that succeeds would pass acquire's space check again at
that moment. For every counter, these are exactly the runs in which the producers never overrun
the consumer (`SafeExactlyWhenFit`), and `RingSafety.Reachable` covers all of them and no other.
What a user of the ring needs to know to be in such a run:

* Runs whose successful compare-and-swaps come fewer than `modulus` laps after their loads fit
  (`FreshRunFits`). With an unbounded counter that is every run, and so it is with one producer,
  whatever the counter does (`OneProducerIsFresh`).
* A ring is safe whatever its callers do if and only if the counter never comes back, or there
  is one worker, or the buffer is one byte long (`SafeConfigurations`). In any other ring, with
  the code's counter or with one of 31 bits, `CounterThatComesBackBreaksOwnership` leads to two
  producers that own the same bytes.
* A ring in which nobody ever asks for half of the buffer or less is safe too, whatever the
  counter does (`BigRequestsFit`).

The systems built on the ring (`WakeUp`, `TaskProtocol`, `EndToEnd`) have histories of events
instead of runs, and a history fits under the same condition. The limits are exact for them too:

* No wake-up is ever lost, in any history, if and only if the counter never comes back, or there
  is one worker, or the buffer is one byte long (`WakeUpLimits.WakeUpsAreSafeExactly`).
* The task queue is FIFO in every history, and its strategy never sleeps for good on a task that
  was pushed, if and only if the counter never comes back, or there is one worker, or the buffer
  is shorter than two of the shortest frames, which are 32 bytes long
  (`EndToEndLimits.QueuesAreSafeExactly`).

## Where the code and its text differ

* `_setWrapCounter` (`src/ustevent/core/detail/MpscRingBuffer.h:113-117`) changes its own copy of
  the word, so the counter stays 0. Outside the configurations named above, producers come to
  own the same bytes, a strategy goes to sleep for good although a claim is waiting
  (`WakeUpLimits.CounterThatComesBackLosesWakeUps`), two pushed tasks are left behind by a
  sleeping strategy, and pop returns another task than the next one pushed
  (`EndToEndLimits.CounterThatComesBackLosesTasks`). The same holds of a counter of 31 bits; it
  takes that many laps between a load and its compare-and-swap.
* `pop` reads the description's length where the operation's length is
  (`src/ustevent/core/detail/ContextTaskQueue.cpp:46` and `:86`), so a description always ends at
  its first NUL. The model does the same, and `Framing.RoundTripExact` says when nothing is lost.
* `waitUntil` decrements `_count` on a timeout too
  (`src/ustevent/core/detail/BasicSemaphore.hpp:73-74`). `_count` goes negative in the model,
  and a wait that timed out is still owed a permit: `Semaphore.NotifyAtRest` says that a notify
  at rest is swallowed exactly while `_count` is negative, and `Semaphore.BlockedAtRest` how many
  threads sleep that should not. `Semaphore.TimedOutWaitSpendsANotify` is one such run;
  where no wait times out there is none (`Semaphore.WithoutDeadlines`).
* `get` leaves `_value` alone when there is no default function
  (`src/ustevent/core/concurrency/detail/ObjectScopedThreadLocalStorage.hpp:87-90`), so a new
  object can see a value of an earlier one, whether it has a return function or not:
  `ThreadLocal.StaleValueIsSeen`, against `ThreadLocal.Storage.Get` for the general rule.
* The comment on the bucket table says 2^33 - 1 elements
  (`src/ustevent/core/detail/AppendOnlyArray.h`); the tables hold 2^32 - 1
  (`AppendIndex.CapacityIsExact`).

## Model

| member | source | states |
|---|---|---|
| `RingInvariant.StepKeepsInv` | src/ustevent/core/detail/MpscRingBuffer.cpp:53-222 | Every atomic step of any producer or of the consumer keeps the ring's invariant, provided a compare-and-swap that succeeds still fits in front of the consumer. |
| `RingInvariant.FreshCasFits` | src/ustevent/core/detail/MpscRingBuffer.cpp:70-104 | A compare-and-swap that finds the word it loaded, fewer than `modulus` laps later, finds the very same claim log, so the decision taken on a stale consumer barrier still holds. |
| `RingInvariant.ReadIsConservative` | src/ustevent/core/detail/MpscRingBuffer.cpp:76-77 | The consumer barrier, read now, errs on the safe side of itself, and the barrier index is where the claims end. |
| `RingSafety.ReadStaysConservative` | src/ustevent/core/detail/MpscRingBuffer.cpp:77-104 | A value of the consumer barrier that errs on the safe side goes on doing so through every step of anybody, until the next claim. |
| `RingSafety.StaleReadIsSafe` | src/ustevent/core/detail/MpscRingBuffer.cpp:77-95 | What passes the space check with such a value passes it with the consumer barrier as it is, so acting on it cannot overrun the consumer. |
| `RingInvariant.SeenMeans` | src/ustevent/core/detail/MpscRingBuffer.cpp:160-168 | A stable `_seen` is MAX for a worker without a claim and the start of its claim otherwise, and it is on the consumer's lap exactly when it is not behind the consumer; so ignoring smaller values is right. |
| `RingInvariant.WrapBound` | src/ustevent/core/detail/MpscRingBuffer.cpp:173-194 | When the consumer sees a barrier behind itself, min(capacity, `_end`) is where the last claim of its own lap ends. |
| `RingSafety.RunKeepsInv` | src/ustevent/core/detail/MpscRingBuffer.cpp:53-222 | The invariant holds after every run that fits, of any length, with any number of producers, sizes and laps, and for any wrap counter. |
| `RingSafety.CasIsSafeExactly` | src/ustevent/core/detail/MpscRingBuffer.cpp:75-104 | A compare-and-swap that succeeds keeps the producers from overrunning the consumer if and only if the space check would pass at that moment, and then it keeps the whole invariant. |
| `RingSafety.SafeExactlyWhenFit` | src/ustevent/core/detail/MpscRingBuffer.cpp:53-222 | A run fits if and only if the producers overrun the consumer after none of its steps, for any wrap counter. |
| `RingSafety.FreshRunFits` | src/ustevent/core/detail/MpscRingBuffer.cpp:70-104 | A run whose compare-and-swaps come fewer than `modulus` laps after their loads fits. |
| `RingSafety.OneProducerIsFresh` | src/ustevent/core/detail/MpscRingBuffer.cpp:70-104 | When one worker does all the acquiring, every run is fresh, whatever the counter does. |
| `RingSafety.UnboundedCounterIsFresh` | src/ustevent/core/detail/MpscRingBuffer.h:18-20 | With a wrap counter that never repeats, every run meets the freshness condition. |
| `RingSafety.ProducersDisjoint` | src/ustevent/core/detail/MpscRingBuffer.cpp:53-128 | The ranges two producers own at the same time are inside the buffer and do not overlap. |
| `RingSafety.HeldRangeDisjoint` | src/ustevent/core/detail/MpscRingBuffer.cpp:137-210 | No producer's range overlaps what the consumer holds and has not released. |
| `RingSafety.ConsumeGivesProducedPrefix` | src/ustevent/core/detail/MpscRingBuffer.cpp:137-210 | Whatever happens between the load of `next` and the scans, the range handed out is the next claims in claim order, without a gap, and all of them have been produced. |
| `RingSafety.HeldClaims` | src/ustevent/core/detail/MpscRingBuffer.cpp:196-208 | While it is held, the range stays exactly those claims, and every claim up to its end stays produced. |
| `RingSafety.DecisionStarts` | src/ustevent/core/detail/MpscRingBuffer.cpp:201-205 | The range handed out starts at the first claim not taken yet, which lies exactly at the consumer's position. |
| `RingSafety.UnreleasedBytesArePayload` | src/ustevent/core/detail/MpscRingBuffer.cpp:106-128 | Until it is released, a claim's bytes are what its own producer wrote there and nothing else. |
| `RingSafety.OnlyWritesChangeBytes` | src/ustevent/core/detail/MpscRingBuffer.cpp:53-222 | No step of the protocol touches the buffer; only the write of an owner does. |
| `RingSafety.HeldBytesAreStable` | src/ustevent/core/detail/MpscRingBuffer.cpp:137-222 | No step of anybody changes a byte the consumer holds. |
| `RingSafety.EveryAssertionHolds` | src/ustevent/core/detail/MpscRingBuffer.cpp:60-219 | Every `assert` of acquire, produce, consume and release holds whenever control is there. |
| `RingSafety.ClaimedWithTarget` | src/ustevent/core/detail/MpscRingBuffer.cpp:75-122 | The `target` a producer still has at the end of acquire is the one its claim was made with, so that the last assertion is about the claim. |
| `RingSafety.OneCutOffAtMost` | src/ustevent/core/detail/MpscRingBuffer.cpp:109-122 | Producers are at most one lap ahead, `_end` is MAX and the barrier unlocked on the same lap, and no two producers are between locking and unlocking the barrier. |
| `RingSafety.WrapsAfterProduced` | src/ustevent/core/detail/MpscRingBuffer.cpp:173-189 | The consumer goes round only when every claim of its lap has been produced, including the one that wrapped if that is the next one. |
| `RingCalls.AcquireAnswers` | src/ustevent/core/detail/MpscRingBuffer.cpp:53-128 | In every run that fits, an acquire under way asks for what it was called with, and ends with a claim of exactly that size, which starts over at 0 only when it does not fit behind the last one, or with a space check that fails for that size against the consumer as it is then and a barrier seen during the call. |
| `RingCalls.RefusedOnlyForSpace` | src/ustevent/core/detail/MpscRingBuffer.cpp:79-95 | No step of anybody makes an acquire fail but its own space check, failing. |
| `RingCalls.OwnStepsGoOn` | src/ustevent/core/detail/MpscRingBuffer.cpp:66-127 | Each step of an acquire brings it closer to its end, within eleven steps, unless the barrier moves meanwhile; it waits for a locked barrier only, whose holder has at most three steps left. |
| `RingCalls.LostToAClaim` | src/ustevent/core/detail/MpscRingBuffer.cpp:104 | A compare-and-swap that finds another word sends acquire back to the load, and then somebody else has claimed, or is cutting off, since that load. |
| `RingCalls.AcquireAlone` | src/ustevent/core/detail/MpscRingBuffer.cpp:53-128 | From every reachable state with an unlocked barrier, the atomic steps of an undisturbed acquire come to what the object's does: the claim exactly when the space check passes, and otherwise no change. |
| `RingCalls.UnregisterAndRegister` | src/ustevent/core/detail/MpscRingBuffer.cpp:33-45 | A writer that goes is not registered any more, and one that comes again is idle with nothing seen. |
| `RingCalls.ConsumeGoesOn` | src/ustevent/core/detail/MpscRingBuffer.cpp:137-210 | Each step of consume brings it closer to its end, unless it waits for a locked word; then some thread is inside acquire and does not wait. |
| `RingLimits.SafeConfigurations` | src/ustevent/core/detail/MpscRingBuffer.h:18-20 | Every run fits, and no two producers ever own the same byte, if and only if the counter never comes back, or there is one worker, or the buffer is one byte long. |
| `RingLimits.UnboundedCounterIsSafe` | src/ustevent/core/detail/MpscRingBuffer.cpp:96-104 | With a counter that never repeats, every run is safe without any assumption. |
| `RingLimits.BigRequestsFit` | src/ustevent/core/detail/MpscRingBuffer.cpp:75-103 | When every request is for more than half the buffer, every run fits, for any counter: each claim ends earlier than the one before, so a stale word is never met again. |
| `RingLimits.OneByteFits` | src/ustevent/core/detail/MpscRingBuffer.cpp:75-103 | In a ring of one byte acquire refuses everything, so every run fits. |
| `RingLimits.CounterThatComesBackBreaksOwnership` | src/ustevent/core/detail/MpscRingBuffer.h:113-117 | For every counter that comes back, the code's own among them, every capacity of at least 2 and at least two workers, a run ends with two producers that both own the bytes [1, capacity). |
| `RingLimits.DrainedMeets` | src/ustevent/core/detail/MpscRingBuffer.cpp:143-150 | When every claim has been handed out and released, producers and consumer stand at the same place and the barrier is unlocked. |
| `RingLimits.HalfTheBufferAlwaysFits` | src/ustevent/core/detail/MpscRingBuffer.cpp:75-103 | A request passes the space check in every reachable drained state if and only if it is for at most half the buffer. |
| `RingLimits.TooBigIsRefused` | src/ustevent/core/detail/MpscRingBuffer.cpp:75-103 | For every larger size a drained ring that refuses it is reachable: right behind an earlier request of that size. |
| `RingLimits.RefusedForever` | src/ustevent/core/detail/ContextTaskQueue.hpp:26-33 | From there, however often the loop of push tries again and the consumer looks, no byte is ever claimed. |
| `PackedWord.FieldsOfPacked` | src/ustevent/core/detail/MpscRingBuffer.h:85-131 | The masks take the three fields of the 64-bit word apart, the lock helpers change only the lock, and the counter counts modulo 2^31. |
| `PackedWord.SamePackedWord` | src/ustevent/core/detail/MpscRingBuffer.h:57-62 | Two packed words are equal exactly when lock, counter and index are, so comparing words is comparing fields. |
| `PackedWord.CounterNeverMoves` | src/ustevent/core/detail/MpscRingBuffer.h:113-117 | The word acquire swaps in has counter 0, whatever was loaded. |
| `RingBuffer.MpscRingBuffer.constructor` | src/ustevent/core/detail/MpscRingBuffer.cpp:12-18 | A new ring is the initial state of the transition system, with nobody registered. |
| `RingBuffer.MpscRingBuffer.RegisterWorker` | src/ustevent/core/detail/MpscRingBuffer.cpp:33-40 | Registration is the two register steps of the transition system. |
| `RingBuffer.MpscRingBuffer.Acquire` | src/ustevent/core/detail/MpscRingBuffer.cpp:53-128 | Gives a fresh claim of exactly `size` contiguous bytes, or changes nothing: success exactly when the request fits the buffer and does not reach the consumer, however often the weak compare-and-swap fails for no reason. |
| `RingBuffer.MpscRingBuffer.Plan` | src/ustevent/core/detail/MpscRingBuffer.cpp:75-103 | One round of acquire's arithmetic decides the space check and computes the word to swap in. |
| `RingBuffer.MpscRingBuffer.SwapIn` | src/ustevent/core/detail/MpscRingBuffer.cpp:66-104 | The loop swaps the barrier and leaves a locked `_seen`, or changes nothing, exactly as the space check says, however often the compare-and-swap fails for no reason. |
| `RingBuffer.MpscRingBuffer.Finish` | src/ustevent/core/detail/MpscRingBuffer.cpp:106-127 | The rest of acquire unlocks `_seen`, and for a claim that starts over stores the cut-off and unlocks the barrier. |
| `RingBuffer.MpscRingBuffer.Produce` | src/ustevent/core/detail/MpscRingBuffer.cpp:130-135 | Produce is the produce step and nothing else. |
| `RingBuffer.MpscRingBuffer.Consume` | src/ustevent/core/detail/MpscRingBuffer.cpp:137-210 | Returns the longest run of produced claims that lie next to each other from the oldest on, going round if needed; 0 exactly when there is no claim left or the oldest is unproduced. |
| `RingBuffer.MpscRingBuffer.ConsumeOnce` | src/ustevent/core/detail/MpscRingBuffer.cpp:143-208 | One turn of the loop either starts the consumer over at 0, which brings it one lap closer to the producers, or decides. |
| `RingBuffer.MpscRingBuffer.Observe` | src/ustevent/core/detail/MpscRingBuffer.cpp:152-170 | The loop over the workers finds MAX, or the smallest seen offset, which is that of a claim not yet produced. |
| `RingBuffer.MpscRingBuffer.Release` | src/ustevent/core/detail/MpscRingBuffer.cpp:212-222 | Releasing part of what is held is the release step, starting over at 0 at the capacity. |
| `Framing.U32RoundTrip` | src/ustevent/core/detail/ContextTaskQueue.hpp:36-37 | A length stored as 32 bits comes back modulo 2^32. |
| `Framing.FrameAligned` | src/ustevent/core/detail/ContextTaskQueue.hpp:16-22 | A record is a multiple of 8 long and has room for the operation, the description and its NUL. |
| `Framing.RoundUpIsLeast` | src/ustevent/core/detail/ContextTaskQueue.hpp:70-75 | Rounding up gives the least multiple of 8 that is no smaller. |
| `Framing.FrameIsLaidOut` | src/ustevent/core/detail/ContextTaskQueue.hpp:13-57 | A complete record is, byte for byte, the two lengths, the operation filled up to a multiple of 8 by less than 8 bytes, the stack size, the description's length, and the description with its NUL filled up likewise; and nothing else is one. |
| `TaskLimits.FrameIsLong` | src/ustevent/core/detail/ContextTaskQueue.hpp:16-22 | A record has at least 32 bytes, and exactly 32 when the operation has at most 8 and the description at most 7. |
| `Framing.UpToNulIsAll` | src/ustevent/core/detail/ContextTaskQueue.cpp:47-51 | Reading up to the first NUL gives all of a description exactly when it has none. |
| `Framing.ReadsWhatWasWritten` | src/ustevent/core/detail/ContextTaskQueue.cpp:24-56 | pop's offsets find, in the bytes push wrote, the record's length, the operation, the stack size modulo 2^32 and the description up to its first NUL. |
| `Framing.RoundTripExact` | src/ustevent/core/detail/ContextTaskQueue.hpp:13-59 | What comes back is what was pushed if and only if the stack size is below 2^32 and the description has no NUL. |
| `TaskStream.ConsumedRangeParses` | src/ustevent/core/detail/ContextTaskQueue.cpp:57-97 | In every reachable state, if the held claims hold frames, the range the consumer was handed parses from its first byte to its last as whole records, one for each claim and in claim order. |
| `TaskStream.BatchGoesOn` | src/ustevent/core/detail/ContextTaskQueue.cpp:27-56 | Within a batch the record at `_poped` is the next task's, whatever has been released before it, and `_poped` moves to the one after. |
| `TaskStream.ReleasedRecord` | src/ustevent/core/detail/ContextTaskQueue.hpp:61-68 | Releasing the length in front of the oldest operation frees exactly its record, and the last one of a batch puts the consumer barrier at the batch's end, or 0 at the capacity. |
| `TaskProtocol.ReactKeepsInv` | src/ustevent/core/detail/ContextTaskQueue.hpp:26-58 | Every step, a compare-and-swap if it fits, keeps the queue's invariant: acquire's atomic steps, each byte of each store of push, produce, pop, consume and release, by any threads in any order. |
| `TaskProtocol.PopsAreFifo` | src/ustevent/core/detail/ContextTaskQueue.cpp:24-97 | In every history that fits, the records pop has returned are those of the tasks pushed, in claim order and each once. |
| `TaskProtocol.ProducedClaimsAreRecords` | src/ustevent/core/detail/ContextTaskQueue.hpp:34-56 | In every history that fits, every claim that has been produced holds its task's whole record, and what is held of a batch parses to its last byte as the tasks not performed yet. |
| `TaskProtocol.PopReadsTheNext` | src/ustevent/core/detail/ContextTaskQueue.cpp:27-56 | In every history that fits, a pop within a batch reads the next task's record from the buffer as it is at that moment, while other pushes are under way. |
| `TaskProtocol.RecordsAreAligned` | src/ustevent/core/detail/ContextTaskQueue.hpp:70-75 | In every history that fits, every claim, finished or not, starts at a multiple of 8. |
| `TaskCalls.PopsAreInputs` | src/ustevent/core/detail/ContextTaskQueue.cpp:24-97 | In every history that fits, pop returns the arguments of the calls of push, in the order of their claims, each once. |
| `TaskCalls.PushReturnsWhenDone` | src/ustevent/core/detail/ContextTaskQueue.hpp:24-58 | In every history that fits, push comes back from produce only, with its argument among the claimed tasks and its record complete. |
| `TaskCalls.OwnStepsGoOn` | src/ustevent/core/detail/ContextTaskQueue.hpp:24-58 | In every history that fits, each step of a push whose record is no longer than the buffer brings it closer to its end, up to the last byte stored, except that it waits for a locked barrier and starts again when the space check fails. |
| `TaskCalls.RingStepsAreEvents` | src/ustevent/core/detail/ContextTaskQueue.hpp:24-33 | The queue's interleavings leave out no step that the ring's threads can take. |
| `TaskLimits.SafeHistoriesFit` | src/ustevent/core/detail/ContextTaskQueue.hpp:26-58 | Every history fits when the counter never comes back, or there is one worker, or the buffer has no room for two frames. |
| `TaskLimits.SafeQueuesAreFifo` | src/ustevent/core/detail/ContextTaskQueue.cpp:24-97 | In such a ring every history, without any condition on it, is FIFO, its produced claims are whole records, and a pop within a batch returns the next task. |
| `TaskStream.HeldRangeParses` | src/ustevent/core/detail/ContextTaskQueue.cpp:27-56 | The same from any record on, while earlier ones are released, if the claims still held hold frames. |
| `TaskStream.ClaimsAligned` | src/ustevent/core/detail/ContextTaskQueue.hpp:70-75 | If every claim is a multiple of 8 long, every claim starts at a multiple of 8, on every lap. |
| `FrameStores.ChunksHoldFrame` | src/ustevent/core/detail/ContextTaskQueue.hpp:36-54 | Push's seven stores, in the order of the code, leave a complete record: none spoils an earlier one. |
| `TaskQueue.RecordsAligned` | src/ustevent/core/detail/ContextTaskQueue.hpp:70-75 | When every claim is a finished record, every record starts at a multiple of 8. |
| `TaskQueue.PushKeepsQueue` | src/ustevent/core/detail/ContextTaskQueue.hpp:26-58 | A push leaves every earlier record as it was and adds one at the end of the queue. |
| `TaskQueue.ContextTaskQueue.constructor` | src/ustevent/core/detail/ContextTaskQueue.cpp:10-22 | A new queue is empty. |
| `TaskQueue.ContextTaskQueue.StoreFrame` | src/ustevent/core/detail/ContextTaskQueue.hpp:34-54 | The stores of one push, byte by byte inside the acquired range, leave the record there and no other claim's bytes changed. |
| `TaskQueue.ContextTaskQueue.TryPush` | src/ustevent/core/detail/ContextTaskQueue.hpp:30-58 | One attempt appends the task to the FIFO exactly when the ring has room, and otherwise leaves it alone. |
| `TaskQueue.ContextTaskQueue.Push` | src/ustevent/core/detail/ContextTaskQueue.hpp:13-59 | The loop appends the task exactly when its first attempt would, as long as nobody else acts; on a drained ring it succeeds for every record of at most half the buffer. |
| `TaskQueue.ContextTaskQueue.Drain` | src/ustevent/core/detail/ContextTaskQueue.hpp:61-68 | When every task has been performed, producers and consumer stand at the same place. |
| `TaskQueue.PushedTwice` | src/ustevent/core/detail/ContextTaskQueue.hpp:26-33 | Pushed on a fresh queue, popped, performed and pushed again: the first push succeeds exactly for records shorter than the buffer, the second exactly for those of at most half of it, with any number of retries. |
| `TaskQueue.ContextTaskQueue.ReadFields` | src/ustevent/core/detail/ContextTaskQueue.cpp:27-55 | The pointer arithmetic of pop computes the fields of the record at `base` and where the next one starts. |
| `TaskQueue.ContextTaskQueue.Pop` | src/ustevent/core/detail/ContextTaskQueue.cpp:24-97 | Refines a FIFO: fails exactly when no task is left, and otherwise returns the oldest one, across batches and laps. |
| `TaskQueue.ContextTaskQueue.Refill` | src/ustevent/core/detail/ContextTaskQueue.cpp:57-67 | The branch that asks the ring starts a new batch exactly when a task is left. |
| `TaskQueue.ContextTaskQueue.PopRecord` | src/ustevent/core/detail/ContextTaskQueue.cpp:69-96 | The record at `_poped` is the oldest task not popped, and `_poped` moves to the next or exactly onto `_consumed`. |
| `TaskQueue.ContextTaskQueue.Perform` | src/ustevent/core/detail/ContextOperation.h:23-33 | Performing the oldest popped task frees exactly its record, later records of the batch stay as they are, and the last one puts the consumer's barrier at the batch's end, or 0 at the capacity. |
| `WakeUp.HistoryKeepsInv` | src/ustevent/core/BlockingContextStrategy.cpp:17-46 | The wake-up invariant holds at the end of every history that fits, of the ring, the posters and the strategy. |
| `RingSafety.NothingReady` | src/ustevent/core/detail/MpscRingBuffer.cpp:143-150 | consume comes back with nothing, although claims are left, only if the oldest one was found unproduced. |
| `WakeUp.NoLostWakeUp` | src/ustevent/core/ContextStrategy.cpp:94-102 | In every history that fits, a strategy that sleeps has nothing of a batch left; without being notified it has nothing else to pop either, or the oldest unpopped claim's producer has not reached its notify yet; notified, it has a wake-up on its way. |
| `WakeUp.SuspendsBetweenBatches` | src/ustevent/core/detail/ContextTaskQueue.cpp:27-65 | In every history that fits, pop lets the strategy suspend only when no record of a batch is left, neither to pop nor to release. |
| `WakeUp.SleepsOnlyWhenDrained` | src/ustevent/core/Context.hpp:109-124 | In every history that fits, when no post is under way and the strategy sleeps, every claim has been taken. |
| `WakeUp.ReturnsWithFlagDown` | src/ustevent/core/BlockingContextStrategy.cpp:17-35 | onSuspended comes back because its time is over or the flag is up, and always with the flag down. |
| `WakeUp.FlagStaysUp` | src/ustevent/core/BlockingContextStrategy.cpp:37-46 | Nothing else takes the flag down: a notify that finds the strategy busy is kept. |
| `WakeUp.NotifyAlone` | src/ustevent/core/BlockingContextStrategy.cpp:37-46 | A notify that nobody disturbs brings a sleeping strategy back. |
| `WakeUp.WakeUpsWereNotified` | src/ustevent/core/BlockingContextStrategy.cpp:17-46 | In every history the strategy comes back, time-outs aside, no more often than it was notified. |
| `WakeUpLimits.SafeHistoriesFit` | src/ustevent/core/detail/MpscRingBuffer.h:18-20 | Every history fits when the counter never comes back, or there is one worker, or the buffer is one byte long. |
| `WakeUpLimits.RunHappens` | src/ustevent/core/Context.hpp:109-124 | Every run of the ring, fitting or not, is what the ring does in some history of posters and a strategy. |
| `WakeUpLimits.CounterThatComesBackLosesWakeUps` | src/ustevent/core/detail/MpscRingBuffer.h:113-117 | For every counter that comes back, every capacity of at least 2 and at least two workers, a history ends with the strategy asleep, no wake-up under way, nobody pushing, and a claim it has not taken. |
| `WakeUpLimits.WakeUpsAreSafeExactly` | src/ustevent/core/ContextStrategy.cpp:94-102 | Every history fits, a sleeping strategy is always right to sleep, and no wake-up is ever lost, each if and only if the counter never comes back, or there is one worker, or the buffer is one byte long. |
| `EndToEnd.ReactKeepsInv` | src/ustevent/core/ContextStrategy.cpp:115-133 | Every event of the task queue and the handshake together, a compare-and-swap if it fits, keeps both invariants, over one ring and with the bytes of real records in each batch. |
| `EndToEnd.LeavesNothingOut` | src/ustevent/core/Context.hpp:109-124 | The two systems together allow whatever either does: every step of a push or pop by a thread whose turn it is, and every event of the notify and of the wait. |
| `EndToEnd.SleepsOnlyWhenAllIsDone` | src/ustevent/core/Context.hpp:109-124 | In every history that fits, when the strategy sleeps and nobody is in a post, every task ever pushed has been popped, in claim order and once each, and performed, and the ring is empty. |
| `EndToEnd.AllInputsAreDone` | src/ustevent/core/Context.hpp:109-124 | In every history that fits, at rest in that sense, what pop has returned is everything that push was called with, in the order of the claims. |
| `EndToEnd.SafeRingsSleepOnlyWhenAllIsDone` | src/ustevent/core/Context.hpp:109-124 | The same in every history at all when the counter never comes back, or there is one worker, or the buffer has no room for two frames. |
| `EndToEndLimits.CounterThatComesBackLosesTasks` | src/ustevent/core/detail/MpscRingBuffer.h:113-117 | In every other ring one history ends with the strategy asleep for good and two pushed tasks not popped, and one in which pop returns a task that overwrote the next one. |
| `EndToEndLimits.QueuesAreSafeExactly` | src/ustevent/core/detail/ContextTaskQueue.hpp:13-59 | Every history fits, pop is FIFO in every history, and a strategy that sleeps with no post under way has performed everything, each if and only if the counter never comes back, or there is one worker, or the buffer has no room for two frames. |
| `ListProtocol.StepKeepsInv` | src/ustevent/core/concurrency/detail/ListNodeAllocator.hpp:58-120 | Every atomic step of alloc, free, enqueueSp, dequeueSc, dequeueMc and dequeueMcWeak, by any thread, keeps both lists, their gaps and the places of all nodes consistent. |
| `ListSafety.RunKeepsInv` | src/ustevent/core/concurrency/detail/ListQueue.hpp:17-94 | The same after every run. |
| `ListSafety.QueueIsFifo` | src/ustevent/core/concurrency/detail/ListQueue.hpp:17-94 | With any number of consumers, or with one that only loads the tail: what has been dequeued is a prefix of what was enqueued, in order and once each, and following the links from the dummy spells out exactly the rest, while old dummies come back as new nodes. |
| `ListSafety.DequeueDecides` | src/ustevent/core/concurrency/detail/ListQueue.hpp:62-67 | A dequeue finds no successor exactly when, at that step, everything enqueued has been dequeued. |
| `ListSafety.DequeueTakesTheOldest` | src/ustevent/core/concurrency/detail/ListQueue.hpp:68-71 | The value a dequeue moves out is the oldest one still queued. |
| `ListSafety.TailIsALock` | src/ustevent/core/concurrency/detail/ListQueue.hpp:56-61 | Null in a tail means that exactly one thread has it; so consumers exclude each other, and so do allocators. With dequeueSc nobody ever finds the tail null. |
| `ListSafety.NodeHasOnePlace` | src/ustevent/core/concurrency/detail/ListNodeAllocator.hpp:58-120 | Every node ever created is in exactly one of the queue, the free list and one thread's hands, at one place. |
| `ListSafety.AllocGivesAnUnusedNode` | src/ustevent/core/concurrency/detail/ListNodeAllocator.hpp:58-85 | The node alloc returns is linked to nothing, in neither list and in no other thread's hands. |
| `ListSafety.FreeListSegments` | src/ustevent/core/concurrency/detail/ListNodeAllocator.hpp:72-93 | The free list is a chain of linked segments, and each missing link is owed by exactly one thread, which will store the right node through the right one. |
| `ListSafety.ChunkOnlyWhenNothingShows` | src/ustevent/core/concurrency/detail/ListNodeAllocator.hpp:95-119 | alloc goes for a new chunk exactly when the free list is down to its dummy or the link behind the dummy is still owed. |
| `ListSafety.NoNullDereference` | src/ustevent/core/concurrency/detail/ListNodeAllocator.hpp:95-119 | No step goes through a null pointer. |
| `ListCalls.QueueOfInputs` | src/ustevent/core/concurrency/detail/ListQueue.hpp:17-94 | What goes into the queue is what enqueueSp was called with, in the order of the calls, and what comes out is the beginning of that. |
| `ListCalls.GivesUpExactly` | src/ustevent/core/concurrency/detail/ListQueue.hpp:53-94 | A dequeue decides to return nothing exactly when its load of the successor finds everything enqueued dequeued, or, for dequeueMcWeak only, when the exchange finds the tail taken. |
| `ListCalls.NothingMeansEmpty` | src/ustevent/core/concurrency/detail/ListQueue.hpp:53-74 | When dequeueMc or dequeueSc has come back without a value, the queue was empty at some moment of that call. |
| `ListCalls.OwnStepsGoOn` | src/ustevent/core/concurrency/detail/ListNodeAllocator.hpp:58-120 | Every operation takes at most seven steps of its own, except that it waits for a tail, and while one waits some other thread is inside and does not. |
| `ListCalls.EnqueueAlone` | src/ustevent/core/concurrency/detail/ListQueue.hpp:17-25 | From every reachable state, an undisturbed enqueueSp appends its argument. |
| `ListCalls.DequeueAlone` | src/ustevent/core/concurrency/detail/ListQueue.hpp:37-94 | From every reachable state with nobody dequeuing, an undisturbed dequeue takes the oldest value and frees the old dummy, or leaves everything as it was exactly when there is none. |
| `ListCalls.WeakGivesWay` | src/ustevent/core/concurrency/detail/ListQueue.hpp:76-83 | dequeueMcWeak comes back at once, and changes nothing, while another consumer has the tail. |
| `ListCalls.AllocAlone` | src/ustevent/core/concurrency/detail/ListNodeAllocator.hpp:58-85 | An undisturbed alloc gives the free list's dummy if the link behind it shows, and otherwise the first node of a new chunk whose other nodes join the free list. |
| `ListCalls.FreeAlone` | src/ustevent/core/concurrency/detail/ListNodeAllocator.hpp:87-93 | An undisturbed free puts its node at the end of the free list. |
| `ListCalls.ChunkOnlyAfterLooking` | src/ustevent/core/concurrency/detail/ListNodeAllocator.hpp:95-119 | A thread makes a chunk only after it has had the free list's tail and found nothing behind the dummy, and never because another thread has the tail. |
| `ListQueues.ListQueue.constructor` | src/ustevent/core/concurrency/detail/ListNodeAllocator.hpp:14-28 | A new queue is empty: one dummy in each list and no chunk. |
| `ListQueues.ListQueue.Chain` | src/ustevent/core/concurrency/detail/ListNodeAllocator.hpp:68-72 | The loop links every node of a chunk from the third on to the one before it. |
| `ListQueues.ListQueue.TryDequeueFreeList` | src/ustevent/core/concurrency/detail/ListNodeAllocator.hpp:95-119 | Gives the free list's dummy, unlinked, and makes its successor the dummy; null exactly when the dummy is alone. |
| `ListQueues.ListQueue.Alloc` | src/ustevent/core/concurrency/detail/ListNodeAllocator.hpp:58-85 | Gives a node of neither list: the oldest free one, or one of a new chunk exactly when only the dummy was left. |
| `ListQueues.ListQueue.Free` | src/ustevent/core/concurrency/detail/ListNodeAllocator.hpp:87-93 | Appends the node to the free list. |
| `ListQueues.ListQueue.EnqueueSp` | src/ustevent/core/concurrency/detail/ListQueue.hpp:17-25 | Appends the value to the contents. |
| `ListQueues.ListQueue.DequeueSc` | src/ustevent/core/concurrency/detail/ListQueue.hpp:37-51 | Takes the first of the contents, or fails and changes nothing exactly when there is none. |
| `ListQueues.ListQueue.DequeueMc` | src/ustevent/core/concurrency/detail/ListQueue.hpp:53-74 | The same with the tail taken out and put back. |
| `ListQueues.ListQueue.ChunksFollowPeak` | src/ustevent/core/concurrency/detail/ListNodeAllocator.hpp:58-85 | The number of chunks ever allocated is the longest the queue has been divided by the chunk size, rounded up; and no node is lost. |
| `ThreadLocal.AllFree` | src/ustevent/core/concurrency/detail/ObjectScopedThreadLocalStorage.hpp:57-63 | As many free indices as indices means that no object is alive, so clearing both vectors is right. |
| `ThreadLocal.Storage.GetIndex` | src/ustevent/core/concurrency/detail/ObjectScopedThreadLocalStorage.hpp:97-118 | The index given back last is used again; only without one is there a new index. |
| `ThreadLocal.Storage.Create` | src/ustevent/core/concurrency/detail/ObjectScopedThreadLocalStorage.hpp:26-32 | A new object has no value in any thread, whoever had its index before, and shares its index with no living object. |
| `ThreadLocal.Storage.Get` | src/ustevent/core/concurrency/detail/ObjectScopedThreadLocalStorage.hpp:66-95 | Returns what the thread has for this object; the first time, the default if there is a default function and otherwise what was left in the slot; every other pair keeps its value. |
| `ThreadLocal.Storage.Assign` | src/ustevent/core/concurrency/detail/ObjectScopedThreadLocalStorage.hpp:94 | A write through the returned reference changes this thread's value for this object only. |
| `ThreadLocal.Storage.ReturnValues` | src/ustevent/core/concurrency/detail/ObjectScopedThreadLocalStorage.hpp:39-55 | The destructor's loop takes the object's value out of every thread, each once through its return function, and touches no other. |
| `ThreadLocal.Storage.Destroy` | src/ustevent/core/concurrency/detail/ObjectScopedThreadLocalStorage.hpp:34-64 | Afterwards no thread has a value of the object, and its index is free, or all indices start again. |
| `ThreadLocal.Storage.Exit` | src/ustevent/core/concurrency/detail/ObjectScopedThreadLocalStorage.hpp:135-148 | A thread's exit calls return functions for its own values of living objects, with the values they had. |
| `ThreadLocal.Storage.ReturnedExactlyOnce` | src/ustevent/core/concurrency/detail/ObjectScopedThreadLocalStorage.hpp:34-64 | For every value get initialised with a return function, that function has been called once if the object or the thread is gone, and not at all while both live. |
| `ThreadLocal.Storage.NeverReturnedOtherwise` | src/ustevent/core/concurrency/detail/ObjectScopedThreadLocalStorage.hpp:135-148 | And never for a pair get did not initialise. |
| `ThreadLocal.Storage.SlotsAreIsolated` | src/ustevent/core/concurrency/detail/ObjectScopedThreadLocalStorage.hpp:82-93 | An owned node at index i is owned by `s_owners[i]`, a living object with that index; beyond `s_owners` nothing is owned. |
| `ThreadLocal.StaleValueIsSeen` | src/ustevent/core/concurrency/detail/ObjectScopedThreadLocalStorage.hpp:84-93 | When an object without functions is destroyed, the first get of the new object at its index returns the default if the new one has a default function, and otherwise the destroyed one's value, with or without a return function. |
| `Semaphore.StepKeepsInv` | src/ustevent/core/detail/BasicSemaphore.hpp:23-78 | Every atomic operation and critical section keeps the balance of the two counts, the waiters, the notifiers and the sleepers. |
| `Semaphore.Conservation` | src/ustevent/core/detail/BasicSemaphore.hpp:23-78 | Slow waiters plus the initial count are `_count`, notifiers about to increment it, and what the atomic is below zero. |
| `Semaphore.PermitsAreAccountedFor` | src/ustevent/core/detail/BasicSemaphore.hpp:23-78 | Initial count plus notifies are the waits passed, the waits timed out and the permits still held somewhere; so no more waits pass than there were permits. |
| `Semaphore.AnswersAreRight` | src/ustevent/core/detail/BasicSemaphore.hpp:51-78 | A wait comes back only with an answer, and the answer is whether there was a permit; one whose time is over still takes a permit that has come meanwhile. |
| `Semaphore.AnswersAreCounted` | src/ustevent/core/detail/BasicSemaphore.hpp:51-78 | Over every run without reset, the passes and time-outs in the balance are the answers given. |
| `Semaphore.SpuriousWakeUpsAreHarmless` | src/ustevent/core/detail/BasicSemaphore.hpp:57 | A sleeper woken for no reason tests again, and without a permit ends in the same sleep. |
| `Semaphore.BlockedAtRest` | src/ustevent/core/detail/BasicSemaphore.hpp:51-78 | At rest no fewer threads sleep than permits are short for the waits not given up; more do if and only if somebody sleeps and permits were swallowed, namely `_count` plus the timeouts of them; none are where no wait timed out. |
| `Semaphore.NotifyAtRest` | src/ustevent/core/detail/BasicSemaphore.hpp:24-35 | A notify at rest makes one more permit available if and only if `_count` is not negative; otherwise a wait that timed out swallows it. |
| `Semaphore.TimeOutGoesIntoDebt` | src/ustevent/core/detail/BasicSemaphore.hpp:73-74 | A wait that gives up without a permit takes `_count` one further below zero. |
| `Semaphore.WithoutDeadlines` | src/ustevent/core/detail/BasicSemaphore.hpp:52-61 | In every run that uses wait only, the sleepers at rest are exactly the shortage. |
| `Semaphore.NoLostPermit` | src/ustevent/core/detail/BasicSemaphore.hpp:23-35 | While somebody sleeps and `_count` is positive, some thread is about to test it or to wake a sleeper. |
| `Semaphore.TimedOutWaitSpendsANotify` | src/ustevent/core/detail/BasicSemaphore.hpp:73-74 | A wait that timed out makes the wait after the next notify sleep. |
| `Semaphore.ResetRestores` | src/ustevent/core/detail/BasicSemaphore.hpp:37-49 | With nobody in flight, reset restores the fresh state if and only if the initial count is 0 or the atomic is not negative. |
| `Semaphore.BasicSemaphore.NotifyAtomic` | src/ustevent/core/detail/BasicSemaphore.hpp:27 | notify's fetch_add is the notify step, and tells whether a waiter must be paid. |
| `Semaphore.BasicSemaphore.PostUnderLock` | src/ustevent/core/detail/BasicSemaphore.hpp:29-32 | notify's critical section is the post step. |
| `Semaphore.BasicSemaphore.WaitAtomic` | src/ustevent/core/detail/BasicSemaphore.hpp:54 | wait's fetch_sub is the wait step, and tells whether it must take the slow path. |
| `Semaphore.BasicSemaphore.TestUnderLock` | src/ustevent/core/detail/BasicSemaphore.hpp:56-58 | One look at the predicate takes a permit exactly if there is one. |
| `Semaphore.BasicSemaphore.TimeOutUnderLock` | src/ustevent/core/detail/BasicSemaphore.hpp:72-77 | A wait whose time is over counts as passed if there is a permit and as timed out otherwise, and decrements either way. |
| `Semaphore.BasicSemaphore.ResetAtRest` | src/ustevent/core/detail/BasicSemaphore.hpp:37-49 | reset with nobody in flight is the reset step. |
| `Barrier.StepKeepsInv` | src/ustevent/core/detail/BasicBarrier.hpp:23-40 | Every stretch under the mutex keeps the books of all generations. |
| `Barrier.CompletedGenerations` | src/ustevent/core/detail/BasicBarrier.hpp:30-36 | Every completed generation has exactly `_threshold` arrivals, exactly one true, and the others false or on their way out, whichever later generations overlap. |
| `Barrier.CurrentGeneration` | src/ustevent/core/detail/BasicBarrier.hpp:27-30 | Nobody has left the current generation, and `_count` is what it lacks. |
| `Barrier.SlowWakersLeave` | src/ustevent/core/detail/BasicBarrier.hpp:38-39 | Whoever waits for a completed generation is not asleep, and its next look lets it go. |
| `Barrier.EarlyWakersStay` | src/ustevent/core/detail/BasicBarrier.hpp:38 | Whoever waits for the current generation stays, even if woken for no reason. |
| `Barrier.SpuriousWakeUpsAreHarmless` | src/ustevent/core/detail/BasicBarrier.hpp:38 | A wake-up for no reason changes nothing for a waiter of the current generation. |
| `Barrier.BasicBarrier.Arrive` | src/ustevent/core/detail/BasicBarrier.hpp:27-36 | An arrival returns true exactly as the one that completes its generation, and otherwise waits for it. |
| `Barrier.BasicBarrier.Test` | src/ustevent/core/detail/BasicBarrier.hpp:38-39 | A look at the predicate releases exactly those whose generation is complete. |
| `AppendIndex.Log2IsLogarithm` | src/ustevent/core/detail/AppendOnlyArray.hpp:117-127 | 63 minus the leading zeros is the logarithm rounded down, for every 64-bit word but zero. |
| `AppendIndex.TablesArePowers` | src/ustevent/core/detail/AppendOnlyArray.hpp:15-39 | The two tables are the powers of two and their sums. |
| `AppendIndex.CapacityIsExact` | src/ustevent/core/detail/AppendOnlyArray.hpp:129-134 | An index has a bucket in the table if and only if it is below 2^32 - 1. |
| `AppendIndex.LocateIsASlot` | src/ustevent/core/detail/AppendOnlyArray.hpp:63-69 | Every such index has a bucket and an offset inside it, and they determine the index. |
| `AppendIndex.SlotIsLocated` | src/ustevent/core/detail/AppendOnlyArray.hpp:85-90 | Every slot of every bucket belongs to such an index. |
| `AppendProtocol.StepKeepsInv` | src/ustevent/core/detail/AppendOnlyArray.hpp:79-115 | Every atomic step of emplace by any thread keeps buckets, claims and finished elements consistent. |
| `AppendProtocol.PrefixIsFinished` | src/ustevent/core/detail/AppendOnlyArray.hpp:53-70 | Every index below `_size` reads the value of the emplace that claimed it, also when an array lost the race for its bucket. |
| `AppendProtocol.StepsOnlyAppend` | src/ustevent/core/detail/AppendOnlyArray.hpp:92-112 | No step changes what an index was claimed for, a published element, or a bucket once set, and `_size` never shrinks. |
| `AppendProtocol.EmplaceReturnsItsIndex` | src/ustevent/core/detail/AppendOnlyArray.hpp:104-114 | When emplace returns an index, that index is published and holds its value. |
| `AppendProtocol.IndicesAreClaimedOnce` | src/ustevent/core/detail/AppendOnlyArray.hpp:84 | No two threads work on the same index. |
| `AppendProtocol.FirstUnpublishedGoesOn` | src/ustevent/core/detail/AppendOnlyArray.hpp:106-112 | Waiting for one's turn does not deadlock: the owner of the first unpublished index can always step, and its publication succeeds. |
| `AppendCalls.ElementsAreInputs` | src/ustevent/core/detail/AppendOnlyArray.hpp:79-115 | In every run, the element at an index is the argument of the call of emplace that was given that index. |
| `AppendCalls.OwnStepsGoOn` | src/ustevent/core/detail/AppendOnlyArray.hpp:79-115 | emplace takes at most five steps of its own, and waits only while an earlier index is unpublished. |
| `AppendCalls.NoArrayIsLost` | src/ustevent/core/detail/AppendOnlyArray.hpp:86-102 | Every array allocated is its bucket's, or deleted, or with the thread about to offer it; and one is allocated only where the load found none. |
| `AppendCalls.EmplaceAlone` | src/ustevent/core/detail/AppendOnlyArray.hpp:79-115 | With nobody else in emplace, a call appends its argument at the next index. |
| `AppendOnlyArrays.AppendOnlyArray.Emplace` | src/ustevent/core/detail/AppendOnlyArray.hpp:79-115 | Appends to the contents and returns the new element's index. |
| `AppendOnlyArrays.AppendOnlyArray.At` | src/ustevent/core/detail/AppendOnlyArray.hpp:53-70 | Returns the element, or out of range exactly beyond the size. |

## Left out

Assumed of the environment:

- One consumer and one strategy, and one enqueuing thread for a list queue (with dequeueSc, one dequeuing thread too); a worker index below `producer_num`; requests of at least one byte; a capacity below 2^32; `alloc_size` at least 2; a barrier for at least one thread; no more than 2^32 - 1 appends.
- Sequentially consistent memory: fences, weak orders, prefetching and alignment are not modelled.
- Threads and object identities are numbers that are not used again; counters other than the ring's wrap counter do not overflow, in particular the semaphore's `int`s and the barrier's generation.

Not modelled, or modelled otherwise:

- RingSafety.RunKeepsInv: with the wrap counter as the code has it, not every run fits; SafeExactlyWhenFit says which do, and SafeConfigurations in which rings all do.
- RingBuffer.MpscRingBuffer.Acquire: works on words with three fields instead of 64 bits; `PackedWord` relates the two.
- TaskQueue.ContextTaskQueue.Push: gives up after a number of retries that the caller names, during which nobody else acts; in TaskProtocol retries interleave with everything else, without a bound.
- TaskStream.ConsumedRangeParses: assumes that the held claims hold frames; TaskProtocol.ProducedClaimsAreRecords is the same without the assumption.
- TaskStream.HeldRangeParses: assumes the same of the claims from `j` on.
- TaskQueue.RecordsAligned: asks that no push is under way; TaskProtocol.RecordsAreAligned does not.
- WakeUp.NoLostWakeUp: with the wrap counter as the code has it, not every history fits; WakeUpLimits.WakeUpsAreSafeExactly says in which rings all do.
- TaskProtocol.PopsAreFifo: likewise; EndToEndLimits.QueuesAreSafeExactly says in which rings all histories fit.
- TaskQueue.ContextTaskQueue.Pop: a pop that reaches `consume` requires that everything popped before was performed, which suspend_until sees to by popping only when no fiber is ready.
- TaskQueue.ContextTaskQueue.Perform: tasks are performed in the order they were popped; releasing out of order is not modelled.
- ListQueues.ListQueue.DequeueMc: called by one thread, so the loop that waits for a non-null tail never turns; ListProtocol has the waiting, and ListSafety.QueueIsFifo holds with it.
- Semaphore.BasicSemaphore.ResetAtRest: reset while threads wait or notify is not modelled.
- Spin loops on a locked word, a null tail or another index's turn appear as steps that leave the state alone. The `GoOn` lemmas say whom a thread waits for; that the scheduler lets that thread run is not modelled.
- Work that no other thread can see (allocating and chaining a chunk, filling a node, allocating a bucket) is part of the step that follows or precedes it.
- An operation is a block of bytes; constructing, moving and destroying it, and its handler, are not modelled. A moved-from thread-local value is arbitrary.
- `get` is one step; it works on the calling thread's own vector, and the destructor touches only nodes of the object being destroyed.
- Copying and moving of MpscRingBufferWriter, and the storage list that keeps chunks alive until the allocator dies.
- BlockingContextStrategy without the BLOCKING flag, which neither waits nor notifies.
- `ListQueue::enqueueMp`, which is never instantiated; SpinMutex; work stealing, fibers and backtraces in the strategies; everything under `src/ustevent/net`.
