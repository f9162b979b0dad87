# Model of the TOPPERS/ASP3 shim for Espressif's Wi-Fi and Bluetooth libraries

The shim gives binary libraries written for FreeRTOS their queues, semaphores, mutexes, timers and a heap
on top of a kernel whose objects are created statically. Most of its difficulty comes from one rule of that
kernel: while mstatus.MIE is clear, every service call returns E_CTX and does nothing. The shim therefore
keeps accounts of what it could not do and settles them later. This project models those accounts and
proves what they keep.

`dafny verify dfyconfig.toml` checks everything.

## How the model is laid out

| files | subject |
|---|---|
| `Kernel` | which calls a context may issue |
| `SlotQueue`, `QueueProtocol`, `QueueRuns` | the slot queue under preemption, one step per kernel call or locked section, any number of contexts |
| `QueueOrder` | the order of messages under preemption |
| `QueueCalls`, `QueueSolo` | the same calls undisturbed, as a bounded FIFO; the steps of a context left alone add up to them |
| `ShimQueues`, `ShimQueuePool` | the queue records in place, with their arrays and the shared total |
| `ShimSems`, `ShimWakeups` | gives and wake-ups that are parked while the CPU is locked |
| `SemRuns` | the semaphore pool under preemption |
| `ShimCritical`, `ShimCore` | the two nested families of interrupt locks, and the settlement at the outermost exit |
| `HeapSpec`, `HeapLaws`, `HeapUse`, `Heap` | the heap as a list of blocks, its laws, how much of it a run uses, and the headers in place |
| `TimerSpec`, `TimerDispatch`, `ShimTimers` | the keyed timer list, its dispatcher under preemption, and the linked nodes in place |
| `BtTimerSpec`, `ShimBtTimers` | the esp_timer pool and its task |
| `BondCrc`, `BondTables`, `BondImage`, `BondCalls`, `BondRuns`, `BondStore` | the bond store: checksum, tables as maps, bytes and flash, whole calls, runs, arrays in place |
| `RecMutex` | the recursive mutex under preemption and in place |

In each part a value model says what a call means, laws are proved about it, and a class that changes the
same fields and arrays as the source is proved to compute it.

## What is assumed of the kernel and the device

The kernel is not part of this model. Its contract, taken from the comments at
`esp/c3/wifi/esp_shim.c:141-157` and `esp/common/wifi/esp_shim_core.c:556-568,377-396,810-842`, is the three
predicates of `Kernel`: waiting calls need a dispatchable task, polling calls a task that has not locked the
CPU, signalling calls and psnd_dtq an unlocked CPU. A data queue holds `ESP_SHIM_DTQ_CNT` numbers. The two timer
semaphores are binary, as their configuration files say. loc_mtx fails on a mutex the caller holds. `TMAX_RELTIM`
has the value of the TOPPERS third-generation kernels. The flash erases to ones in units of one sector and can
only clear bits when written; which driver calls fail is a parameter. The clock, and whether memory runs out in
the timer code, are parameters.

## Where the code does not do what its comments say

Each of these is a theorem below, with the exact condition where there is one.

- `esp_shim_queue_flush_pending` is documented for MIE==1 only, but send, receive and reset call it always.
  On a locked CPU it throws the parked messages away: two sends inside one critical section lose the first.
  If a release has repaid the debt meanwhile, a token is lost for good as well.
- The branch marked #9 as not expected to be reached is reached: a send without time limit fails at once when the queue is
  full and there is debt.
- An unlocked interrupt send does not flush first and overtakes parked messages. Under preemption a task send
  does so, too, when something is parked between its flush and its post (int_restore flushes nothing), and two
  overlapping flushes can swap messages. `QueueOrder` says which steps overtake, and that nothing else does.
- `esp_shim_sem_create` starts at `init` only when it may drain the semaphore. It throws parked gives of an earlier
  owner away, but one that a preempted flush has popped already reaches the new owner.
- A full wake-up array is said to do no harm; with a fifth semaphore the timer task can sleep for good. The
  repository's own callers use two, SHIM_TIMER_SEM and BT_TIMER_SEM, so the fifth is a hypothetical caller's.
- A due timer without a function (or callback) is taken for "nothing due", and the task oversleeps the rest.
- The security table is sized for our records and the peer's, but both are keyed by the address alone.
- A write or delete whose commit fails has changed the work image all the same.
- A load that the flash driver fails counts as done; the next write that succeeds then replaces all earlier bonds
  by what memory holds.

## Model

| member | source | states |
|---|---|---|
| `QueueRuns.TokensAreConserved` | esp/common/wifi/esp_shim_core.c:697-996 | in every interleaving of any number of contexts: semaphore count + tokens taken before their slot + releases still to be signalled + tokens lost == free slots + debt; debt never exceeds the slots in use, the count never exceeds the depth, and every lost token goes with a message a locked flush dropped |
| `QueueRuns.SlotsStayApart` | esp/common/wifi/esp_shim_core.c:697-842 | in every interleaving the slots 0..depth-1 are divided without repetition among free stack, data queue, live ring window and contexts; no array of the queue is ever overrun |
| `QueueRuns.HoldersFindRoom` | esp/common/wifi/esp_shim_core.c:858-950 | whoever holds a slot finds room for it in the data queue, in the ring and on the free stack |
| `QueueRuns.WaitingSendersFaceAFullQueue` | esp/common/wifi/esp_shim_core.c:859-921 | at rest, with no token lost, a sender that finds no token faces a queue that is really full: no wake-up of a blocked sender is missed |
| `QueueRuns.WaitsEndRightly` | esp/common/wifi/esp_shim_core.c:885-911 | how waiting ends, in any state and whoever runs in between: what is there is taken at the next step; with nothing there a call that may not wait returns at once, one with a limit when this expires and no sooner, one without a limit not at all |
| `QueueRuns.MessagesAreAccounted` | esp/common/wifi/esp_shim_core.c:770-996 | exactly one thing has become of every message copied in: still in the hands of its send, queued with its bytes unchanged, delivered once with its bytes unchanged, discarded by a reset, or dropped by a flush on a locked CPU; no two live messages share a slot, none is delivered twice |
| `QueueRuns.DropsAreLockedFlushes` | esp/common/wifi/esp_shim_core.c:810-842 | along every run the dropped messages are as many as the flush rounds executed on a locked CPU |
| `QueueRuns.NothingIsLostWithoutLockedFlush` | esp/common/wifi/esp_shim_core.c:803-842 | a run without a locked flush loses no token, drops no message and refuses none that was copied in |
| `QueueRuns.LossesAreUnpaidRounds` | esp/common/wifi/esp_shim_core.c:722-842 | along every run tokens are lost by locked flush rounds that find no debt to repay, one each once the signal they owe has been refused, and by nothing else |
| `QueueRuns.TokensLostExactly` | esp/common/wifi/esp_shim_core.c:722-842 | with nobody about to signal, the tokens missing are exactly as many as those rounds |
| `QueueRuns.LockedFlushLosesAToken` | esp/common/wifi/esp_shim_core.c:722-842 | a run one core can make in which a locked flush loses both an accepted message and a token for good |
| `QueueRuns.OverlappingFlushesReorder` | esp/common/wifi/esp_shim_core.c:810-842 | a run one core can make in which two overlapping flushes swap two parked messages: the witness that overtaking happens |
| `QueueOrder.OrderIsKeptExactly` | esp/common/wifi/esp_shim_core.c:810-996 | in every interleaving: the order of acceptance, of messages delivered and then of those on their way, holds throughout a run if and only if no step overtakes, that is no post while something is in the ring or in the hands of a flush, no flush posts out of turn, and no receiver copies out of turn |
| `QueueOrder.StepIsFifoExactly` | esp/common/wifi/esp_shim_core.c:810-996 | in every reachable state, in order or not, a step leaves the line of messages as it was, lets one join at its end or lets one go, if and only if it does not overtake |
| `QueueOrder.DeliveredInOrder` | esp/common/wifi/esp_shim_core.c:810-996 | on a run without overtaking, messages are delivered in the order in which they were accepted, and before all those still on their way |
| `QueueOrder.AcceptedAreAll` | esp/common/wifi/esp_shim_core.c:858-972 | the order kept beside the run lists exactly the messages accepted so far, once each |
| `QueueOrder.OrderlyCallsKeepOrder` | esp/common/wifi/esp_shim_core.c:810-996 | what callers can do: if every call is made with the CPU unlocked, handlers send by the interrupt send only and one context receives, then in every interleaving nothing is ever parked and no step overtakes |
| `QueueProtocol.StepKeeps` | esp/common/wifi/esp_shim_core.c:697-1027 | one atomic step of one context (a kernel call or a locked section) keeps partition, ledger and message record, whatever everybody else holds |
| `QueueSolo.AloneComputesTheCall` | esp/common/wifi/esp_shim_core.c:810-1027 | the steps of a context left alone add up to the call function that the sequential laws and the classes are about, in the queue, in waiting and in the answer: a send that returns 1 has put one accepted message more into the record, one that returns 0 none, a receive has delivered the bytes it is said to get |
| `QueueCalls.SendIsFifo` | esp/common/wifi/esp_shim_core.c:859-921 | a send is a bounded first-in first-out enqueue, accepted iff fewer than depth messages are held, from every context and with any debt, if and only if the CPU is not locked or nothing is parked |
| `QueueCalls.SendAnswers` | esp/common/wifi/esp_shim_core.c:859-921 | what a send answers, in every context and for every limit: 1 iff there is room once its flush is over, and then the message is behind those left; on a full queue it waits iff its task may wait, for ever, and there is no debt; 0 in all other cases, nothing being added |
| `QueueCalls.SecondLockedSendLosesTheFirst` | esp/common/wifi/esp_shim_core.c:859-883 | the first of two sends inside one critical section is lost although both report success |
| `QueueCalls.BlockingSend` | esp/common/wifi/esp_shim_core.c:875-911 | a send without time limit waits iff the queue is full and free of debt; full with debt it fails at once |
| `QueueCalls.SendFromIsrIsFifo` | esp/common/wifi/esp_shim_core.c:922-972 | an interrupt send succeeds iff the queue is not full, and keeps the order if and only if the CPU is locked, the queue is full, or nothing parked differs from the new message |
| `QueueCalls.SendFromIsrOvertakes` | esp/common/wifi/esp_shim_core.c:931-972 | where it lands: in front of everything parked, behind the data queue |
| `QueueCalls.RecvIsFifo` | esp/common/wifi/esp_shim_core.c:974-996 | a receive takes the oldest message, parked ones included, whenever its context may receive; otherwise it leaves the contents alone if and only if the CPU is not locked or nothing is parked |
| `QueueCalls.ResetRestores` | esp/common/wifi/esp_shim_core.c:1015-1027 | a reset from an unlocked task brings back the accounting of a new queue: every slot free, no debt, ring and data queue empty, the count back at the depth short of tokens lost earlier; from any other context only the ring is emptied |
| `QueueCalls.FlushCarries` | esp/common/wifi/esp_shim_core.c:810-842 | an unlocked flush appends the ring to the data queue in order |
| `QueueCalls.LockedFlushThrows` | esp/common/wifi/esp_shim_core.c:810-842 | a locked flush frees every parked slot, throwing the messages away, and repays debt |
| `QueueCalls.PerformKeepsSettled` | esp/common/wifi/esp_shim_core.c:810-1027 | every call, in every context, keeps the accounting balanced and every parked message covered by debt |
| `QueueCalls.CallsKeepSettled` | esp/common/wifi/esp_shim_core.c:810-1027 | after any sequence of calls that do not overlap the count is free slots plus debt |
| `SlotQueue.WindowAfterPush` | esp/common/wifi/esp_shim_core.c:770-782 | a push appends one slot to the live window, wrap-around included |
| `SlotQueue.WindowAfterPop` | esp/common/wifi/esp_shim_core.c:829-832 | a pop takes the oldest slot of the live window, wrap-around included |
| `ShimQueues.Queue.constructor` | esp/common/wifi/esp_shim_core.c:596-668 | depth clamped to the data queue, all slots free, count raised to the depth |
| `ShimQueues.Queue.SlotAlloc` | esp/common/wifi/esp_shim_core.c:696-705 | takes the top of the free stack, or reports that none is free |
| `ShimQueues.Queue.SlotRelease` | esp/common/wifi/esp_shim_core.c:707-733 | puts a slot back and repays one debt if there is any |
| `ShimQueues.Queue.SlotFreeNotify` | esp/common/wifi/esp_shim_core.c:722-737 | as above, and signals unless a debt was repaid |
| `ShimQueues.Queue.DebtAllocCopy` | esp/common/wifi/esp_shim_core.c:745-759 | takes a slot without a token, at the price of a debt, and copies the item |
| `ShimQueues.Queue.RingPush` | esp/common/wifi/esp_shim_core.c:770-778 | the ring write with wrap-around |
| `ShimQueues.Queue.RingPop` | esp/common/wifi/esp_shim_core.c:829-832 | the ring read with wrap-around |
| `ShimQueues.Queue.CopyIn` | esp/common/wifi/esp_shim_core.c:908-908 | the item copy changes that slot of the byte pool and no other |
| `ShimQueues.Queue.CopyOut` | esp/common/wifi/esp_shim_core.c:993-993 | the bytes copied out are those of that slot |
| `ShimQueues.Queue.TokenSend` | esp/common/wifi/esp_shim_core.c:889-920 | the rest of a send that holds a token computes its call function |
| `ShimQueues.ItemsAfterCopy` | esp/common/wifi/esp_shim_core.c:754-755 | overwriting the bytes of one item leaves every other item of the pool alone |
| `ShimQueuePool.QueuePool.constructor` | esp/common/wifi/esp_shim_core.c:576-595 | the pool of queues starts with nothing parked |
| `ShimQueuePool.QueuePool.FlushOne` | esp/common/wifi/esp_shim_core.c:822-841 | the inner loop computes the flush of one queue and keeps the shared total |
| `ShimQueuePool.QueuePool.FlushAll` | esp/common/wifi/esp_shim_core.c:820-841 | every queue is flushed, the total stays the sum over the rings |
| `ShimQueuePool.QueuePool.FlushPending` | esp/common/wifi/esp_shim_core.c:810-842 | with the test of the total against zero as its fast path, the flush empties every ring |
| `ShimQueuePool.QueuePool.PendPushSlot` | esp/common/wifi/esp_shim_core.c:770-784 | parks a slot and keeps the total equal to the sum |
| `ShimQueuePool.QueuePool.PendPush` | esp/common/wifi/esp_shim_core.c:791-801 | the parking send computes its call function |
| `ShimQueuePool.QueuePool.Send` | esp/common/wifi/esp_shim_core.c:858-921 | computes flush of all queues, then the send on one |
| `ShimQueuePool.QueuePool.SendFromIsr` | esp/common/wifi/esp_shim_core.c:922-972 | the same queue and answer as the interrupt send call, with no flush; other queues untouched |
| `ShimQueuePool.QueuePool.Recv` | esp/common/wifi/esp_shim_core.c:974-996 | computes flush of all queues, then the receive on one |
| `ShimQueuePool.QueuePool.Reset` | esp/common/wifi/esp_shim_core.c:1015-1027 | computes flush of all queues, then the drain of one |
| `ShimQueuePool.NothingPending` | esp/common/wifi/esp_shim_core.c:576-579 | the total is zero iff no ring holds a slot, so the unlocked test against zero is sound |
| `ShimSems.GivesAreConserved` | esp/common/wifi/esp_shim_core.c:280-374 | every call keeps: gives reported as done == signalled + saturated + parked + discarded by delete or create + lost by a locked flush; and count + taken == initial count + raised |
| `ShimSems.TakeAnswers` | esp/c3/wifi/esp_shim.c:136-160 | a take is told that it has the semaphore iff its caller may wait and the count is positive, and then the count is one less; otherwise nothing is taken, and it waits iff it may do so for ever |
| `ShimSems.TakesSucceedExactly` | esp/c3/wifi/esp_shim.c:136-160 | of any takes in a row by tasks that may wait exactly as many succeed as the count was, or all of them |
| `ShimSems.DeleteLeavesNoGive` | esp/common/wifi/esp_shim_core.c:325-346 | a deleted semaphore has no parked give left for a later owner: they are discarded |
| `SemRuns.GivesAreConservedAlways` | esp/common/wifi/esp_shim_core.c:280-374 | in every interleaving of any number of contexts, for every entry: gives == signalled + saturated + parked + discarded + lost + in the hands of contexts (refused and not yet parked, or popped by a flush and not yet signalled); count + taken == count at the claim + raised; the total is the sum of the parked gives |
| `SemRuns.AtRestGivesAreSettled` | esp/common/wifi/esp_shim_core.c:280-374 | with nobody inside a call nothing is in between, and the gives to earlier owners that the present owner of an entry has received are exactly those that flushes had in hand when it was created |
| `SemRuns.OneOwnerAndHonestTakes` | esp/common/wifi/esp_shim_core.c:293-346 | in every interleaving no entry has two owners at a time, and what has been taken of a semaphore since its claim is what takes were told they had and what its own draining found |
| `SemRuns.UnlockedFlushesLoseNothing` | esp/common/wifi/esp_shim_core.c:353-374 | in every interleaving without a flush on a locked CPU no give is lost |
| `SemRuns.GiveReachesNextOwner` | esp/common/wifi/esp_shim_core.c:293-374 | a run one core can make in which a give that a flush has popped raises the semaphore of the next owner, although delete and create throw parked gives away |
| `SemRuns.GiveAlone` | esp/c3/wifi/esp_shim.c:162-195 | undisturbed, the steps of a give come to the give call |
| `SemRuns.CreateAlone` | esp/common/wifi/esp_shim_core.c:293-323 | undisturbed, the steps of a creation claim the first entry not in use, drain it and raise it to the count of the create call, and leave the others alone |
| `SemRuns.FlushAlone` | esp/common/wifi/esp_shim_core.c:353-374 | undisturbed, the steps of a flush come to the settlement of every entry |
| `ShimSems.SettleGivesSettles` | esp/common/wifi/esp_shim_core.c:353-374 | a flush leaves no parked give: unlocked they raise the count up to the maximum, locked they are lost |
| `ShimSems.ParkingOnlyDelays` | esp/c3/wifi/esp_shim.c:162-195 | a give parked and settled later ends as if it had been made after the gives parked before it |
| `ShimSems.CreateStartsAtInit` | esp/common/wifi/esp_shim_core.c:293-323 | a re-created semaphore has no parked give of its previous owner, and starts at exactly init if and only if init is within the maximum and the creator may poll, or, where it may not, the old count happens to fit |
| `ShimSems.SemPool.constructor` | esp/common/wifi/esp_shim_core.c:262-292 | an unused pool |
| `ShimSems.SemPool.Give` | esp/c3/wifi/esp_shim.c:162-195 | signals, or parks and reports success when the CPU is locked |
| `ShimSems.SemPool.Take` | esp/c3/wifi/esp_shim.c:136-160 | takes, waits or fails as the context allows |
| `ShimSems.SemPool.Create` | esp/common/wifi/esp_shim_core.c:293-323 | first unused entry, parked gives cleared, count drained and raised |
| `ShimSems.SemPool.Delete` | esp/common/wifi/esp_shim_core.c:325-346 | entry released, parked gives cleared and taken off the total |
| `ShimSems.SemPool.FlushPending` | esp/common/wifi/esp_shim_core.c:353-374 | every entry settled, the total zero |
| `ShimWakeups.WakeUpIsKept` | esp/common/wifi/esp_shim_core.c:389-411 | with no more semaphores in use than the array has places, a wake-up is raised at once or kept |
| `ShimWakeups.WakeUpIsKeptExactly` | esp/common/wifi/esp_shim_core.c:389-411 | in general it is kept iff the caller is unlocked, the identifier waits already, or a place is free |
| `ShimWakeups.WakeUpsAreThoseAsked` | esp/common/wifi/esp_shim_core.c:385-430 | over any calls, with at most four identifiers in use and no flush on a locked CPU: those raised and those kept are exactly those asked for |
| `ShimWakeups.WakeAllRaises` | esp/common/wifi/esp_shim_core.c:412-430 | an unlocked flush raises exactly the semaphores kept |
| `ShimWakeups.WakeupPool.SignalOrPend` | esp/common/wifi/esp_shim_core.c:389-411 | computes signal-or-keep on the array |
| `ShimWakeups.WakeupPool.FlushPending` | esp/common/wifi/esp_shim_core.c:412-430 | empties the array and raises what it held |
| `ShimCritical.CodeRestoresMasking` | esp/c3/wifi/esp_shim.c:84-118 | for every well-bracketed word over both lock families interrupts are off at every point inside a bracket, and flag and nesting count end as they began |
| `ShimCritical.UnsoundNestingLeavesInterruptsOff` | esp/c3/wifi/esp_shim.c:84-118 | a critical section, whatever it contains, restores the flag if and only if no other one is open while interrupts are on |
| `ShimCritical.OutermostExitSettlesAll` | esp/c3/wifi/esp_shim.c:98-118 | an outermost critical section ends with every ring empty, no parked give and no kept wake-up, whatever happened inside |
| `ShimCritical.CodeKeepsSound` | esp/c3/wifi/esp_shim.c:84-118 | every word keeps the accounting of queues, gives and wake-ups |
| `ShimCritical.CriticalSectionOnlyDelays` | esp/c3/wifi/esp_shim.c:84-195 | putting gives and wake-ups into an outermost critical section changes nothing in the end |
| `ShimCritical.MaskedGiveStaysParked` | esp/common/wifi/esp_shim_core.c:56-71 | the other lock family settles nothing: a give made under int_disable is still parked after int_restore |
| `ShimCritical.ExitKeepsMessages` | esp/c3/wifi/esp_shim.c:98-118 | the exit of an outermost section carries every parked message over in order and loses none |
| `ShimCritical.CriticalSendArrives` | esp/c3/wifi/esp_shim.c:77-118 | a message sent inside an outermost critical section is in its queue when this is over, as if sent outside |
| `ShimCritical.QueueActs` | esp/common/wifi/esp_shim_core.c:858-1027 | in a task with interrupts on and nothing deferred, send, receive and reset do to the messages of their queue what they are for and leave the other queues alone |
| `ShimCritical.SignalActs` | esp/c3/wifi/esp_shim.c:136-195 | with interrupts on, a give raises its semaphore up to the maximum, a take lowers it if it can, a wake-up raises its own semaphore and no other |
| `ShimCore.Core.IntDisable` | esp/common/wifi/esp_shim_core.c:56-63 | clears the flag and returns what it was |
| `ShimCore.Core.IntRestore` | esp/common/wifi/esp_shim_core.c:65-71 | sets the flag iff it had been set |
| `ShimCore.Core.EnterCritical` | esp/c3/wifi/esp_shim.c:84-96 | saves the flag at the outermost level only |
| `ShimCore.Core.FlushAll` | esp/c3/wifi/esp_shim.c:113-115 | the three flushes leave all three totals zero |
| `ShimCore.Core.ExitCritical` | esp/c3/wifi/esp_shim.c:98-118 | restores the flag and settles at the outermost exit |
| `HeapLaws.RunIsAccounted` | esp/common/wifi/esp_shim_core.c:147-252 | after any sequence of malloc, free and realloc the blocks tile the area, the blocks handed out are exactly those the clients hold, and each has at least the bytes last asked for |
| `HeapLaws.HeldBytesAreApart` | esp/common/wifi/esp_shim_core.c:147-252 | the bytes that two clients may use never overlap, nor the headers between them, and end inside the area |
| `HeapLaws.NothingHeldNothingLost` | esp/common/wifi/esp_shim_core.c:147-252 | when clients have given everything back, all of the area is free again, however it is cut up |
| `HeapLaws.MallocHandsOutOne` | esp/common/wifi/esp_shim_core.c:156-192 | malloc fails iff no free block is large enough; otherwise exactly one block more is handed out, large enough and starting on an eight-byte cell, and no other moves or changes size |
| `HeapLaws.MallocTakesLittle` | esp/common/wifi/esp_shim_core.c:156-192 | malloc fails iff no free block has the bytes behind its header; it takes the first that has, and of this the header and the bytes rounded up to whole cells, or all of it if less than a header and sixteen bytes would remain: two cells too many at most |
| `HeapUse.UseIsBounded` | esp/common/wifi/esp_shim_core.c:156-251 | after any calls the cells in use are at least what the requests need for which the blocks held were handed out, and at most two more for each block |
| `HeapUse.UseFollowsHeld` | esp/common/wifi/esp_shim_core.c:156-251 | on runs in which no resize asks for less than before, the bound holds with the sizes last asked for |
| `HeapUse.ResizeSays` | esp/common/wifi/esp_shim_core.c:227-251 | a resize keeps the block iff it has the bytes asked for; otherwise the answer is that of malloc, and the old block is given back if there is a new one |
| `HeapUse.ResizeKeepsBoundExactly` | esp/common/wifi/esp_shim_core.c:227-251 | the block a resize answers with is within two cells of its new need if and only if it had to move or was within them already |
| `HeapUse.ShrinkingHoldsOn` | esp/common/wifi/esp_shim_core.c:227-251 | a run in which a block shrunk to one byte keeps its 126 cells |
| `HeapLaws.FreeTakesOneBack` | esp/common/wifi/esp_shim_core.c:194-214 | free takes exactly that block back and leaves no free block behind it |
| `HeapLaws.AbsorbIsSound` | esp/common/wifi/esp_shim_core.c:208-212 | joining forward changes neither the area, nor the free space, nor what is handed out |
| `HeapLaws.ReallocReplacesOne` | esp/common/wifi/esp_shim_core.c:227-252 | realloc to a size that is not 0 fails without change, or replaces the block by one that is large enough and moves nobody else; it stays in place iff the old payload suffices |
| `HeapLaws.LiveBlocksAreApart` | esp/common/wifi/esp_shim_core.c:147-192 | two blocks handed out never overlap |
| `HeapLaws.LiveIsInside` | esp/common/wifi/esp_shim_core.c:147-192 | a block handed out lies inside the area |
| `HeapLaws.FreeUndoesMalloc` | esp/common/wifi/esp_shim_core.c:156-214 | malloc followed by free restores the block list if and only if no free block follows the one used |
| `HeapLaws.MallocKeepsCoalesced` | esp/common/wifi/esp_shim_core.c:156-192 | malloc never makes two free neighbours |
| `HeapLaws.NestedCodeRestores` | esp/common/wifi/esp_shim_core.c:156-214 | code that frees in reverse order restores any heap without free neighbours block by block, however deep it nests and whichever requests fail |
| `HeapLaws.FreshHeapIsRestored` | esp/common/wifi/esp_shim_core.c:147-214 | in particular the fresh heap |
| `HeapLaws.FreeKeepsCoalescedExactly` | esp/common/wifi/esp_shim_core.c:194-214 | giving a block back keeps a heap free of free neighbours if and only if the block in front of it is used |
| `HeapLaws.FailedCreateLeaksNothing` | esp/common/wifi/esp_shim_core.c:596-649 | a queue creation that fails, for want of memory or of a free record, leaves the same blocks handed out and as much memory free as before |
| `HeapLaws.ForwardOnlyJoiningFragments` | esp/common/wifi/esp_shim_core.c:207-213 | an instance: frees in the order of the allocations leave two free neighbours, and a request both could serve fails |
| `Heap.ShimHeap.constructor` | esp/common/wifi/esp_shim_core.c:147-154 | one free block that is the whole area |
| `Heap.ShimHeap.HandOut` | esp/common/wifi/esp_shim_core.c:166-180 | the headers after a split, or after a block is used whole, are those of the new block list; the total is the free space; payloads are untouched |
| `Heap.ShimHeap.Malloc` | esp/common/wifi/esp_shim_core.c:156-192 | the first-fit loop over linked headers computes the block-list malloc; payloads already handed out are untouched |
| `Heap.ShimHeap.Coalesce` | esp/common/wifi/esp_shim_core.c:208-212 | the joining loop absorbs all free blocks that follow |
| `Heap.ShimHeap.Free` | esp/common/wifi/esp_shim_core.c:194-214 | computes the block-list free; payloads still handed out are untouched |
| `Heap.ShimHeap.Calloc` | esp/common/wifi/esp_shim_core.c:216-225 | as malloc, and the whole cells of the request are zero |
| `Heap.ShimHeap.Realloc` | esp/common/wifi/esp_shim_core.c:227-252 | computes the block-list realloc and carries the old contents over; other payloads are untouched |
| `Heap.ShimHeap.ClientWrite` | esp/common/wifi/esp_shim_core.c:157-192 | writing inside a payload handed out keeps the heap sound |
| `TimerDispatch.NoWakeUpIsLost` | esp/common/wifi/esp_shim_core.c:385-430 | in every interleaving: while the timer task waits, every armed timer is due no sooner than the deadline its wait was computed from, or its semaphore is kept for later, or a context is between its unlock and its signal; and it waits forever exactly when that scan found no deadline, otherwise as long as it saw this to be away, a millisecond at least and TMAX_RELTIM at most; given that at most four semaphores are in use and no due timer without a function was taken |
| `TimerDispatch.AtRestAllIsHeard` | esp/common/wifi/esp_shim_core.c:1290-1344 | with everybody outside and nothing kept, a task that waits forever leaves no timer armed, and a wait with a limit ends for each armed timer by its deadline, plus the time that passed between reading the clock and waiting, or after the least wait of a millisecond |
| `TimerDispatch.DueTimerIsServed` | esp/common/wifi/esp_shim_core.c:1290-1344 | once the time has come for an armed timer, the next three steps of the task end its wait, read the clock and call the first due timer |
| `TimerDispatch.SignalIsUsedUp` | esp/common/wifi/esp_shim_core.c:1285-1334 | a signal wakes the task if it waits, else saves it its next wait, and is used up either way |
| `TimerDispatch.FlushWakes` | esp/common/wifi/esp_shim_core.c:412-430 | a wake-up that was kept reaches the waiting task by a flush |
| `TimerDispatch.TimerKeepsRinging` | esp/common/wifi/esp_shim_core.c:1290-1328 | in every interleaving, an armed timer that repeats, as long as no call changes or removes it, is called first when its deadline has come and then no sooner than a period after the last time, for which it is due again exactly |
| `TimerDispatch.RingIsACall` | esp/common/wifi/esp_shim_core.c:1322-1328 | each time it is its own function that is called, with its argument |
| `TimerDispatch.RemoveTakesOut` | esp/common/wifi/esp_shim_core.c:1240-1258 | a timer given up is out of the list, and every other is left in it |
| `TimerDispatch.WakeUpsAreSafeExactly` | esp/common/wifi/esp_shim_core.c:385-430 | whatever semaphores are in use: no run loses a wake-up of the timer task if and only if they are at most four |
| `TimerDispatch.FifthSemaphoreLosesWakeUp` | esp/common/wifi/esp_shim_core.c:398-409 | with any five or more semaphores in use there is a run that ends with an armed timer, the task asleep for good and nobody about to wake it |
| `TimerDispatch.KeysStayDistinct` | esp/common/wifi/esp_shim_core.c:1164-1212 | the list never holds two timers with one key, although contexts race to create them |
| `TimerDispatch.WellArmedRunsStayAlive` | esp/common/wifi/esp_shim_core.c:1273-1285 | if only timers with a function are armed, no due timer without a function is ever taken |
| `TimerDispatch.RunKeeps` | esp/common/wifi/esp_shim_core.c:1164-1344 | every step of every context and of the timer task keeps the invariant behind these |
| `TimerDispatch.JobAlone` | esp/common/wifi/esp_shim_core.c:1164-1285 | undisturbed, the steps of setfn, arm and disarm change exactly the timer of the key, created if need be and if memory allows, and an arm signals the task or keeps the signal |
| `TimerSpec.SleepIsRight` | esp/common/wifi/esp_shim_core.c:1304-1342 | the task sleeps on a deadline no armed timer precedes if and only if nothing was due, or the soonest deadline before the due timer without a function precedes its own new one and all behind it |
| `TimerSpec.NoFnHidesTheRest` | esp/common/wifi/esp_shim_core.c:1312-1328 | a due timer without a function makes the task sleep forever over a due timer behind it |
| `TimerSpec.ScanMeans` | esp/common/wifi/esp_shim_core.c:1303-1322 | the scan takes the first due timer and changes nothing else; its deadline result is the soonest among the timers before it |
| `TimerSpec.DoneIsWithout` | esp/common/wifi/esp_shim_core.c:1240-1257 | unlinking removes exactly the timer with this key and keeps the others in order |
| `TimerSpec.InsertKeepsDistinct` | esp/common/wifi/esp_shim_core.c:1195-1212 | insertion after looking again adds the key once |
| `TimerSpec.ScanServesOne` | esp/common/wifi/esp_shim_core.c:1290-1328 | one scan of a burst makes the first outstanding call and leaves the others; with none outstanding every timer is served |
| `TimerSpec.ServedOnFields` | esp/common/wifi/esp_shim_core.c:1306-1322 | a due timer is due again a period from now if it repeats and is not armed any more if it does not, else unchanged; one that is not due is left alone |
| `TimerSpec.RepeatingTimer` | esp/common/wifi/esp_shim_core.c:1306-1322 | over bursts at any instants, a repeating timer rings no sooner than a period after it last rang, is due again exactly then, and keeps key, function, argument and period |
| `TimerSpec.OneShotTimer` | esp/common/wifi/esp_shim_core.c:1306-1322 | a timer that does not repeat rings at most once, iff its deadline came, and then is not armed |
| `TimerSpec.RingsEveryPeriod` | esp/common/wifi/esp_shim_core.c:1306-1322 | served in time, a repeating timer rings exactly at its deadline and every period after it |
| `TimerSpec.JobsOnFields` | esp/common/wifi/esp_shim_core.c:1214-1285 | what setfn, arm and disarm leave in each field of the timer of the key; no other timer changes |
| `ShimTimers.TimerList.Search` | esp/common/wifi/esp_shim_core.c:1176-1183 | finds the timer of the key, or nothing |
| `ShimTimers.TimerList.InsertUnlessThere` | esp/common/wifi/esp_shim_core.c:1195-1212 | links the new node unless the key has appeared meanwhile |
| `ShimTimers.TimerList.FindOrCreate` | esp/common/wifi/esp_shim_core.c:1164-1212 | find, with creation on demand and memory running out |
| `ShimTimers.TimerList.Done` | esp/common/wifi/esp_shim_core.c:1240-1257 | unlinks the node of the key in place |
| `ShimTimers.TimerList.FindAndChange` | esp/common/wifi/esp_shim_core.c:1214-1282 | setfn, disarm and arm up to its signal change exactly the timer of the key |
| `ShimTimers.TimerList.ArmUs` | esp/common/wifi/esp_shim_core.c:1273-1285 | the whole of arm: the timer of the key is armed and the task signalled or the signal kept, unless memory runs out |
| `ShimTimers.TimerList.ScanDue` | esp/common/wifi/esp_shim_core.c:1303-1322 | the scan over the linked nodes |
| `ShimTimers.TimerList.ServeAll` | esp/common/wifi/esp_shim_core.c:1290-1344 | at one instant the task calls the function of every due timer once, in list order, re-arms or disarms it, and sleeps on the soonest deadline of all |
| `BtTimerSpec.SettledIsNotDue` | esp/c3/bt/bt_shim.c:261-270 | a periodic timer served at one instant is next due within one period, at its first deadline plus (floor((now - deadline) / period) + 1) periods |
| `BtTimerSpec.TimesIsQuotient` | esp/c3/bt/bt_shim.c:261-270 | how often it is called: floor((now - deadline) / period) + 1 times |
| `BtTimerSpec.ScanServesOne` | esp/c3/bt/bt_shim.c:256-284 | one scan makes the first outstanding call and leaves the others outstanding; with none outstanding every timer is settled and the soonest deadline is known |
| `BtTimerSpec.ScanMeans` | esp/c3/bt/bt_shim.c:256-278 | the scan takes the first due timer of the pool and changes nothing else |
| `BtTimerSpec.SleepIsRight` | esp/c3/bt/bt_shim.c:256-301 | the task sleeps on a deadline no running timer precedes if and only if nothing was due, or the soonest deadline before the due timer without a callback precedes its own new one and all behind it |
| `BtTimerSpec.NoCallbackHidesTheRest` | esp/c3/bt/bt_shim.c:256-301 | a due timer without a callback makes the task wait forever although the timer behind it is due |
| `ShimBtTimers.TimerPool.Create` | esp/c3/bt/bt_shim.c:118-145 | the first unused timer, or none |
| `ShimBtTimers.TimerPool.Start` | esp/c3/bt/bt_shim.c:159-184 | the timer runs with this deadline and period, no other timer changes, and the task is signalled or the signal kept |
| `ShimBtTimers.TimerPool.ScanDue` | esp/c3/bt/bt_shim.c:255-280 | the locked scan of the array |
| `ShimBtTimers.TimerPool.ServeAll` | esp/c3/bt/bt_shim.c:234-303 | with the clock standing still the task ends having made every outstanding call and no other, and then waits without limit iff no timer is running, and otherwise up to the soonest deadline, not past any and no longer than TMAX_RELTIM |
| `BondCrc.StoreCrc` | esp/common/bt/ble_store_flash.c:154-166 | the accumulating loop computes the checksum |
| `BondCrc.CrcIsLinear` | esp/common/bt/ble_store_flash.c:154-166 | the checksum of a difference is the difference of the checksums |
| `BondCrc.SameCrcExactly` | esp/common/bt/ble_store_flash.c:154-166 | two images collide iff their difference has checksum 0 |
| `BondCrc.OneByteIsDetected` | esp/common/bt/ble_store_flash.c:150-166 | every change of a single byte, in an image of any length, changes the checksum |
| `BondCrc.TwoBytesEscapeExactly` | esp/common/bt/ble_store_flash.c:150-166 | two changed bytes go unnoticed iff the first change turned by their distance is the second |
| `BondCrc.CrcOfFewBytes` | esp/common/bt/ble_store_flash.c:154-166 | the checksum of up to two bytes in bits |
| `BondCrc.SameFlipThirtyTwoApartEscapes` | esp/common/bt/ble_store_flash.c:150-166 | so the same flip in two bytes 32 apart always escapes |
| `BondTables.PutRefinesMap` | esp/common/bt/ble_store_flash.c:323-379 | write replaces or adds the record of its key, keys stay unique, and it refuses, unchanged, iff the map is as large as the table and has no such key |
| `BondTables.PurgeRefinesMap` | esp/common/bt/ble_store_flash.c:381-423 | delete removes exactly the records of the peer and finds nothing iff there are none |
| `BondTables.ReadEnumerates` | esp/common/bt/ble_store_flash.c:270-315 | reading with index 0, 1, 2, ... goes once through all records whose keys match, BLE_ADDR_ANY standing for every peer and 0 for every handle |
| `BondTables.ReadLooksUp` | esp/common/bt/ble_store_flash.c:270-315 | reading a key that is no wildcard finds what the map has for it and nothing else |
| `BondTables.HitsAre` | esp/common/bt/ble_store_flash.c:270-315 | what a read can return are the records asked for, each once |
| `BondTables.SecondRoleReplacesFirst` | esp/common/bt/ble_store_flash.c:332-352 | our record and the peer record of one address share a key: after both were written, ours is still found iff the addresses differ or the records are equal |
| `BondImage.ParseBytes` | esp/common/bt/ble_store_flash.c:83-97 | an image read back from its bytes is the image |
| `BondImage.BytesParse` | esp/common/bt/ble_store_flash.c:83-97 | any bytes of the right length are the bytes of the image read from them |
| `BondImage.ImageLayout` | esp/common/bt/ble_store_flash.c:83-97 | how the image lies in the flash: the magic number lowest byte first, the version, the two tables slot by slot, the checksum last, and its length |
| `BondImage.ReadBackExactly` | esp/common/bt/ble_store_flash.c:230-242 | erase and program read back iff the flash beyond the erased sector has the ones needed; always if the image fits the sector |
| `BondImage.CommitThenLoad` | esp/common/bt/ble_store_flash.c:168-247 | after a successful commit a fresh load accepts the image and restores it, in any flash, given that the image fits the sector |
| `BondImage.OneBadByteIsNoticed` | esp/common/bt/ble_store_flash.c:199-219 | one bad byte anywhere in a stored image makes load start empty |
| `BondCalls.RunIsSound` | esp/common/bt/ble_store_flash.c:168-423 | given that the image fits the sector: after any calls, driver failures that leave the flash as it was or unreadable, and power cycles between calls, no table holds a key twice, in memory or in what a load would find |
| `BondRuns.RunRefinesMaps` | esp/common/bt/ble_store_flash.c:168-423 | every such run is a run of two maps in memory and two in the flash: a load copies flash to memory or empties it, a call changes the maps in memory and, if it succeeds, copies them to the flash |
| `BondRuns.BondsAreDurable` | esp/common/bt/ble_store_flash.c:168-423 | while the driver does not fail, the flash, and memory once loaded, hold exactly what the accepted writes and deletes ask for |
| `BondRuns.LoadBringsBondsExactly` | esp/common/bt/ble_store_flash.c:168-220 | the first load brings what the flash holds if and only if the driver is configured and its read succeeds, or there was nothing |
| `BondRuns.WriteStoresMemory` | esp/common/bt/ble_store_flash.c:222-379 | a write that succeeds leaves in the flash all that memory had, with its record added or replaced, whatever the flash held before and however memory came by it |
| `BondRuns.DeleteStoresMemory` | esp/common/bt/ble_store_flash.c:222-423 | a delete that succeeds leaves in the flash all that memory had but the records of the peer |
| `BondRuns.WriteKeepsBondsExactly` | esp/common/bt/ble_store_flash.c:168-379 | a write that succeeds in an unloaded store keeps the bonds stored earlier if and only if the read of its load succeeds, or there were none but one under its own key |
| `BondRuns.FailedLoadLosesBonds` | esp/common/bt/ble_store_flash.c:185-197 | the bad case: if the load inside a write fails and the write succeeds, its one record replaces all earlier bonds |
| `BondRuns.BondSurvives` | esp/common/bt/ble_store_flash.c:168-423 | a bond survives every run in which no write or delete is about it, whatever commits fail and however often the power is cut, as long as loads are served and failing commits leave the flash as it was |
| `BondCalls.AcknowledgedWriteSurvives` | esp/common/bt/ble_store_flash.c:168-379 | a write that reported success is found after a power cycle, unless its key reads as a wildcard |
| `BondCalls.CommittedSurvives` | esp/common/bt/ble_store_flash.c:168-247 | a commit that succeeded brings the same tables back after a power cycle |
| `BondCalls.FailedWriteShows` | esp/common/bt/ble_store_flash.c:323-379 | a write whose commit fails has put the record into the work image all the same |
| `BondCalls.FailedDeleteShows` | esp/common/bt/ble_store_flash.c:381-423 | a delete whose commit fails has removed the records of the peer from the work image all the same |
| `BondCalls.FailedWriteIsHarmlessExactly` | esp/common/bt/ble_store_flash.c:323-379 | when the driver fails, the loaded records are unchanged if and only if they had this very record already or were full without its key |
| `BondCalls.FailedDeleteIsHarmlessExactly` | esp/common/bt/ble_store_flash.c:381-423 | when the driver fails, the loaded records are unchanged if and only if there were none of the peer |
| `BondCalls.WriteAnswers` | esp/common/bt/ble_store_flash.c:323-379 | what a write answers: BLE_HS_ENOTSUP for another object type, else BLE_HS_ESTORE_CAP iff the map is full without the key, else BLE_HS_ESTORE_FAIL iff the driver fails, else 0 |
| `BondCalls.DeleteAnswers` | esp/common/bt/ble_store_flash.c:381-423 | and a delete: BLE_HS_ENOTSUP, else BLE_HS_ENOENT iff the peer has no record, else BLE_HS_ESTORE_FAIL iff the driver fails, else 0 |
| `BondCalls.ReadAnswers` | esp/common/bt/ble_store_flash.c:261-321 | and a read: counting its index up it goes once through the records that match, and then answers BLE_HS_ENOENT |
| `BondCalls.ErasedIsNotAccepted` | esp/common/bt/ble_store_flash.c:199-219 | an erased sector loads as an empty store |
| `BondStore.FlashStore.constructor` | esp/common/bt/ble_store_flash.c:99-101 | zeroed work image in front of a flash |
| `BondStore.FlashStore.Load` | esp/common/bt/ble_store_flash.c:168-220 | loads once; empty on a failed driver call, a wrong magic or a wrong checksum |
| `BondStore.FlashStore.Commit` | esp/common/bt/ble_store_flash.c:222-247 | seals, erases and writes; what fails leaves which state |
| `BondStore.FlashStore.Nth` | esp/common/bt/ble_store_flash.c:270-315 | the loop finds the record of that index among those asked for |
| `BondStore.FlashStore.Read` | esp/common/bt/ble_store_flash.c:261-321 | the same state and answer as the read call: the record of that index among those asked for, or BLE_HS_ENOENT |
| `BondStore.FlashStore.Locate` | esp/common/bt/ble_store_flash.c:332-352 | the slot of the key, else the first free slot, else none |
| `BondStore.FlashStore.PutInto` | esp/common/bt/ble_store_flash.c:332-352 | computes the table update in place |
| `BondStore.FlashStore.Write` | esp/common/bt/ble_store_flash.c:323-379 | the same state and answer as the write call: load, table update, commit, with refusal before the commit |
| `BondStore.FlashStore.Sweep` | esp/common/bt/ble_store_flash.c:390-414 | clears exactly the slots of the peer |
| `BondStore.FlashStore.Delete` | esp/common/bt/ble_store_flash.c:381-423 | the same state and answer as the delete call: load, sweep of the peer, commit only if something was found |
| `RecMutex.MutualExclusion` | esp/common/wifi/esp_shim_core.c:486-523 | in every interleaving where only a task that has locked unlocks: at most one task is inside, it holds the kernel mutex, and a recorded owner is the holder |
| `RecMutex.ReleasedByTheLastUnlock` | esp/common/wifi/esp_shim_core.c:486-523 | a lock taken d times is released by the d-th unlock and no earlier one; only a recursive mutex is taken twice |
| `RecMutex.PlainMutexAlwaysExcludes` | esp/common/wifi/esp_shim_core.c:486-523 | a mutex that is not recursive keeps tasks apart on every run, even if tasks unlock what they have not locked |
| `RecMutex.ForeignUnlockBreaksIt` | esp/common/wifi/esp_shim_core.c:508-523 | with two tasks or more, a run of a recursive mutex in which an unlock by another task lets two tasks in |
| `RecMutex.ExclusiveExactly` | esp/common/wifi/esp_shim_core.c:486-523 | tasks are kept apart on every run, whoever unlocks, if and only if the mutex is not recursive or there is one task at most |
| `RecMutex.TwiceLockedIsReached` | esp/common/wifi/esp_shim_core.c:486-506 | up to the foreign unlock that run is one in which every task unlocks only what it has locked |
| `RecMutex.StepKeeps` | esp/common/wifi/esp_shim_core.c:486-523 | every access to the fields keeps the invariant behind these |
| `RecMutex.LockAlone` | esp/common/wifi/esp_shim_core.c:486-506 | undisturbed, the steps of a lock come to the lock call: it waits while another task holds the mutex, and otherwise fails only on one's own non-recursive mutex |
| `RecMutex.UnlockAlone` | esp/common/wifi/esp_shim_core.c:508-523 | undisturbed, the steps of an unlock take one from the depth and free the mutex at the last |
| `RecMutex.UnlockByAnyone` | esp/common/wifi/esp_shim_core.c:508-523 | of an unlock by any task: a recursive mutex held more than once is counted down, whoever asks; otherwise owner and count are cleared, and it is free and the answer 1 iff it was the caller's |
| `RecMutex.Mutex.Lock` | esp/common/wifi/esp_shim_core.c:486-506 | the lock in place computes the lock call: success, failure or waiting |
| `RecMutex.Mutex.Unlock` | esp/common/wifi/esp_shim_core.c:508-523 | the unlock in place computes the unlock call |

## Left out

- Creation and deletion of queues while other contexts use them: `esp_shim_queue_delete` and the search for a free queue record are not modelled.
- Several queues under preemption: the protocol has one queue; a flush of the others does not touch it. All of them together are in `ShimQueuePool`, without preemption.
- `ShimQueues.Queue.constructor`: the three allocations of esp_shim_queue_create succeed and a record is free; where it returns NULL, only what it does to the heap is modelled (`HeapLaws.FailedCreateLeaksNothing`).
- Finite time limits: a wait with a limit may expire at any moment in the protocol, and has expired at once in the undisturbed calls.
- A signal to a task that waits for a queue or semaphore raises the count and the task takes it in a later step; handing it over directly would be one of the interleavings. The timer task is handed its signal directly.
- `to_front`: esp_shim_queue_send ignores it, and so does the model.
- Widths: counts are unbounded, while the source has uint32_t counts, uint16_t slot numbers and int64_t microseconds; no count can reach its limit before its array does, except recursion deeper than 2^32 - 1, 2^32 parked gives, and a timer due after 2^63 microseconds.
- Wrap-around of sizes: HB_ALIGN of a request near 2^32, and n * size in calloc, are taken not to wrap.
- A pointer given to free or realloc is one that malloc handed out and that is still held; other pointers are not modelled.
- `Heap.ShimHeap.Calloc`: the bytes of a last, partial cell are not described, because memory is modelled in cells of eight bytes.
- `TimerDispatch`: `esp_shim_timer_done` for a timer that another context is about to change would let that context write into freed memory; in the model that write is lost.
- The Bluetooth timer task wakes by the same mechanism as the timer list; its interleavings with callers are not modelled again, and its callbacks do nothing to the pool. Stopping and deleting a timer are single assignments and have no theorem of their own.
- `esp_timer_create` fills in its timer after unlocking; the model has it in one piece.
- `BondImage`: the fields of a record lie one behind the other, and what NimBLE's structures hold beyond address and handle, padding included, is an opaque run of bytes; NimBLE's headers are not part of this model.
- `BondCalls.RunIsSound`: after a failed erase or write a load would find what it would have found before, or no valid image; a third content that happens to carry a right checksum is left out, because its tables would be arbitrary.
- Power cuts in the middle of a commit: not modelled, beyond a failed write followed by a power cycle.
- Other chips: C5 and C6 have the same critical-section, give, take and timer-pool code, with a pool of 16 timers; the pool size is a parameter.
- Counters for diagnosis, log output, task creation and deletion, `esp_shim_thread_semphr_get`, interrupt tables, random numbers, power-management and partition stubs: they add only easy members.
- The adapters, the network glue, the demo programs and all register-level code: their meaning lies in hardware and libraries outside the repository.
