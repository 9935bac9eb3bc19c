# Verified model of the EtherCAT master

An EtherCAT master drives a ring of devices through SOEM. SOEM does the wire work; this project models the
stateful logic around it and proves what that logic is relied on for, over whole runs and all interleavings.
Every `ecx_*` call is an arbitrary environment step. Nothing here was executed.

| file | subject |
|---|---|
| `LockProtocol.dfy`, `BackendLocks.dfy` | a calculus of C++ lock scopes; the lock skeletons of all entry points and threads; deadlock freedom |
| `BusStates.dfy`, `Lifecycle.dfy` | the bus state under every interleaving of the realtime loop, the service loop and the owner |
| `ContextUse.dfy` | what the triple lock of `shutdown()` protects: SOEM's context while transfers run |
| `Options.dfy`, `Mailbox.dfy` | event construction, attributing drain, SDO and FoE accesses, counters (imperative) |
| `MailboxThreads.dfy` | any number of threads sharing SOEM's error list: freshness and conservation |
| `Timing.dfy`, `DcSync.dfy`, `ClosedLoop.dfy` | timespec arithmetic, the deadline keeper, the DC controller, and the loop closed over both |
| `Devices.dfy`, `PdoRegions.dfy`, `Backend.dfy` | devices, the IO map, and the backend: hooks, process data cycle, activation timeout (imperative) |
| `BusSessions.dfy` | any sequence of public calls on one bus |
| `RealtimeLoop.dfy` | the executor's realtime loop over the backend and the deadline keeper, tied to the closed loop (imperative) |
| `PdoAtomicity.dfy` | byte-by-byte copies by any number of threads: no torn values |
| `ObjectDictionary.dfy` | the dictionary's lookup maps through copies and moves (imperative) |
| `OddInteger.dfy` | integers of 1 to 8 bytes and bit fields read from the wire (imperative loop) |
| `PortDiagnostics.dfy` | the round-robin port refresh (imperative) |
| `Division.dfy` | quotients and remainders with a variable divisor |

How the central results are stated:

- **Deadlock freedom.** Each entry point is reduced to its lock skeleton: scopes of `lock_guard`, `try_to_lock` and
  `scoped_lock`, joins, hooks, and places that may throw; conditions on data become arbitrary choices. An interleaving
  semantics executes any number of such threads, with `scoped_lock` blocking on one mutex, trying the others and
  backing off. A discipline on code (block only on a mutex above all held ones; join, `scoped_lock` and hooks only
  while holding nothing) is proved to exclude deadlock, and every thread's program is proved to keep it. The source's
  warning that dispatching under the bus mutex would deadlock is confirmed by a run that reaches the deadlock.
- **Lifecycle.** Every read and write of the atomic bus state is a separate action, so a check can be separated from
  the write it justifies. The rank of the state never decreases in any run of the documented use.
- **Mailbox.** The imperative drain is proved equal to "keep the first match, count the rest by kind"; on top of it
  failure is reported exactly when an event is returned. The multi-threaded machine adds freshness (nothing stale is
  attributed), attribution (each access hands over the first answer to it, as it would alone) and conservation (each
  popped record ends in exactly one place).
- **DC loop.** With the default gains and V = error² + i_gain·integral², for any cycle time, real arithmetic gives
  V' ≤ 0.99999·V every cycle. With the `int64_t` truncation kept, V still loses at least 0.79 ns² per cycle while the
  error is 101 ns or more, so the loop comes below 101 ns within a computed number of cycles; V never grows past
  5 100 000 ns², and the residue reduction never wraps once the loop is in lock.
- **Process data.** A class invariant ties buffer sizes to the mapped regions from `startup()` on; from it the
  realtime cycle can raise no size or not-on-bus error, and the whole IO map after a cycle is determined.
- **Realtime loop.** `Spin` runs the executor's loop over the imperative backend and deadline keeper; `SpinIsLockedRun`
  makes it a run of the closed loop, so that the stability results speak about this backend and its gains.
- **Sessions.** `RunSession` performs any sequence of public calls with any answers of SOEM and shows the invariant,
  and with it the hook traces and buffer sizes, in every state such a sequence reaches.

Where the code and its documentation differ, the model follows the code:

- The DC residue is the one of least magnitude only from the sync offset on: C++ `%` keeps the sign of a negative
  operand and only the upper half is folded. `ResidueHalfCycleIff` gives the exact condition and `ErrorBeforeOffset`
  an input: with a 1000 ns cycle and a sync offset of 5000 ns, a DC time of 4001 ns reports an error of 999 ns, where
  6001 ns reports -1 ns.
- `read_od` checks the bus state before taking the mailbox mutex, unlike every other transfer. `OdReadAfterClose` is a
  run in which it uses SOEM's context after `ecx_close`, `OdReadUsesOpenContextIff` says exactly when it does not.
- A `startup()` refused because the mapping exceeds the buffer leaves a bus on which direct PDO access is still
  accepted. `DirectAccessInsideIff` says exactly when such accesses stay inside the IO map, and
  `WriteAfterOversizedMapping` is an input for which one does not.
- The SDO variants with a callback are documented as non-blocking (`include/duatic_ethercat_interface/ethercat_bus.hpp:69-70`);
  they perform the access and then run the callback on the caller's thread, with the mailbox mutex released.

## Model

| member | source | states |
|---|---|---|
| LockRuns.RunKeepsInv | src/internal/soem/soem_backend.cpp:829-846 | in every reachable state of threads that keep the locking discipline, mutex ownership and the held/blocked structure of all threads are consistent |
| LockRuns.NeverDeadlocked | src/internal/soem/soem_backend.cpp:866-902 | threads that block only on higher-ranked mutexes, and join or enter scoped_lock holding nothing, never reach a set of threads waiting for each other |
| LockRuns.SomeThreadCanAct | include/duatic_ethercat_interface/executor.hpp:163-179 | while any thread is unfinished some thread can take a step |
| LockRuns.UserCodeHoldsNothing | src/internal/soem/soem_backend.cpp:219-224 | a thread entering a hook or callback owns no mutex |
| LockProtocol.StepKeepsInv | src/internal/soem/soem_backend.cpp:406-433 | every lock, try-lock, back-off, release, throw and join step keeps ownership exact and ordered |
| LockProtocol.StepEffect | src/internal/soem/soem_backend.cpp:829-846 | every action leaves ownership alone, takes one free mutex for the acting thread, or gives one of its own back; no other thread changes |
| LockProtocol.CanStepIff | include/duatic_ethercat_interface/executor.hpp:163-179 | a thread can act if and only if it is unfinished and waits for nobody: blocking is the only obstacle |
| LockProtocol.HolderWaitsHigher | src/ethercat_device.cpp:66-78 | a blocked thread that holds a mutex waits for one of higher rank (device before bus before mailbox before status) |
| LockProtocol.NoDeadlock | src/internal/soem/soem_backend.cpp:433-433 | the invariant excludes every deadlocked set, scoped_lock back-off and joins included |
| BackendLocks.MailboxGood | src/internal/soem/soem_backend.cpp:163-270 | the SDO, FoE and OD accesses report events only under a lower-ranked mutex than the status mutex |
| BackendLocks.PdoGood | src/internal/soem/soem_backend.cpp:588-638 | direct PDO access, buffer access and the device-then-bus dispatch keep the order |
| BackendLocks.StatesGood | src/internal/soem/soem_backend.cpp:708-730 | device state changes and diagnostics calls hold one mutex at a time or in order |
| BackendLocks.LifecycleGood | src/internal/soem/soem_backend.cpp:277-443 | startup, activate and shutdown run hooks and take the triple lock holding nothing, throwing paths included |
| BackendLocks.CyclesGood | src/internal/soem/soem_backend.cpp:866-968 | the realtime and service updates, including a timeout shutdown, keep the order |
| BackendLocks.TransfersTake | src/internal/soem/soem_backend.cpp:163-258 | SDO and FoE accesses take exactly the mailbox mutex and, inside it, the status mutex; an OD read only the mailbox mutex |
| BackendLocks.CopiesTake | src/ethercat_device.cpp:66-78 | process data is copied under the bus mutex, device buffers under the device's, and a dispatch takes the bus mutex inside the device's |
| BackendLocks.ShutdownTakes | src/internal/soem/soem_backend.cpp:406-433 | device state calls take the state mutex, and the closing part of shutdown exactly the PDO, state and mailbox mutexes |
| BackendLocks.ProgramsDisciplined | include/duatic_ethercat_interface/executor.hpp:73-179 | all threads keep the discipline: realtime, service, owner and any number of callers |
| BackendLocks.BackendNeverDeadlocks | src/internal/soem/soem_backend.cpp:866-902 | for any devices, callers and interleaving no deadlock is reachable and some unfinished thread can always act |
| BackendLocks.HooksRunWithoutLocks | src/internal/soem/soem_backend.cpp:277-443 | hooks and asynchronous callbacks run with no backend mutex held by their thread |
| BackendLocks.DispatchUnderBusLockDeadlocks | src/internal/soem/soem_backend.cpp:880-900 | dispatching a device while holding the bus PDO mutex reaches a deadlock, as the source's comments warn |
| Lifecycle.ActKeepsInv | src/internal/soem/soem_backend.cpp:392-443 | every atomic access of any thread keeps the single-writer invariant and never lowers the bus state's rank |
| Lifecycle.RunInv | include/duatic_ethercat_interface/executor.hpp:73-179 | the invariant holds in every state of every run |
| Lifecycle.LifecycleMonotone | src/internal/soem/soem_backend.cpp:849-858 | over whole runs the rank of the bus state never decreases and Shutdown is absorbing |
| Lifecycle.NoCycleStartsAfterShutdown | src/internal/soem/soem_backend.cpp:460-467 | once ShuttingDown is reached no realtime cycle passes its state check |
| Lifecycle.ShutdownNeverThrows | src/internal/soem/soem_backend.cpp:415-421 | the "invalid state" branch of shutdown is unreachable in documented use, although its six reads are separate |
| Lifecycle.StopEndsInShutdown | include/duatic_ethercat_interface/executor.hpp:163-179 | when stop returns both loops have ended and the bus is in Shutdown for good |
| Lifecycle.FullLifecycle | include/duatic_ethercat_interface/executor.hpp:73-179 | a run in which the bus is started, becomes Operational, is cycled, stopped during a cycle, and ends in Shutdown |
| ContextUse.RunInv | src/internal/soem/soem_backend.cpp:170-190 | in every run the context is open whenever a lifecycle that is not shutting down has left PreInit, and only mutex holders use it |
| ContextUse.TransfersUseOpenContext | src/internal/soem/soem_backend.cpp:406-436 | an SDO or FoE transfer that passed its two state reads under the mailbox mutex runs on an open context, in every interleaving with shutdown |
| ContextUse.TransferHappens | src/internal/soem/soem_backend.cpp:170-190 | a run in which an access reaches its transfer |
| ContextUse.OdReadUsesOpenContextIff | src/internal/soem/soem_backend.cpp:478-487 | an OD read, which checks before it locks, runs on an open context iff the bus is not in Shutdown once it holds the mutex |
| ContextUse.OdReadAfterClose | src/internal/soem/soem_backend.cpp:478-487 | a run in which the bus is shut down between the check and the lock, and the OD read uses a closed context |
| MailboxEvents.MakeMailboxEvent | include/duatic_ethercat_interface/internal/soem/mailbox.hpp:40-118 | the switch fills the record to the event the error record denotes, emergency bytes and reset severity included |
| MailboxEvents.EventMeaning | include/duatic_ethercat_interface/internal/soem/mailbox.hpp:40-118 | which records become which kind, protocol and severity, and that exactly aborts carry an index and sub-index |
| MailboxEvents.CodesAreKept | include/duatic_ethercat_interface/internal/soem/mailbox.hpp:48-88 | the code is the abort code's 32 bits or the error code; an emergency keeps its code, register and five data bytes, low byte first |
| MailboxEvents.MakeTimeoutEvent | include/duatic_ethercat_interface/internal/soem/mailbox.hpp:120-132 | a timeout event carries the access's device, protocol, index and sub-index |
| MailboxEvents.TimeoutMeaning | include/duatic_ethercat_interface/internal/soem/mailbox.hpp:120-132 | a timeout is an Error that names the access's device, protocol, index and sub-index and carries no code |
| MailboxEvents.MakeFoeEvent | include/duatic_ethercat_interface/internal/soem/mailbox.hpp:134-183 | the record is filled from the FoE return value and the numbering of error types; 0 is a timeout, not the error type numbered 0 |
| MailboxEvents.FoeKindDecided | include/duatic_ethercat_interface/internal/soem/mailbox.hpp:142-181 | with any one-to-one numbering the return value decides the kind: timeout iff 0, and not-found, too-small and abort iff it is the negated number of that error |
| MailboxEvents.FoeMeaning | include/duatic_ethercat_interface/internal/soem/mailbox.hpp:134-183 | the code is the negated return value, the protocol EoE only for an EoE answer, and each kind belongs to exactly its error numbers |
| MailboxEvents.SolicitedIsError | include/duatic_ethercat_interface/internal/soem/mailbox.hpp:40-118 | every event that can be attributed has Error severity and no emergency part |
| MailboxEvents.BelongingByField | src/internal/soem/soem_backend.cpp:1065-1068 | an event belongs to an access iff it is no emergency, from its device, and agrees on protocol, index and sub-index wherever both carry them |
| MailboxEvents.FirstMatch | src/internal/soem/soem_backend.cpp:1055-1077 | the position of the first event that belongs to the access, none before it does |
| MailboxEvents.CountedAll | src/internal/soem/soem_backend.cpp:1089-1109 | counting n events raises the sum of the three counters by n |
| MailboxEvents.CountedByKind | src/internal/soem/soem_backend.cpp:1089-1109 | emergencies, timeouts and all other kinds are each counted by their own counter |
| MailboxChannel.Channel.Drain | src/internal/soem/soem_backend.cpp:1081-1087 | the opening drain empties the list and counts every event once |
| MailboxChannel.Channel.Attribute | src/internal/soem/soem_backend.cpp:1065-1074 | one record is kept, uncounted, exactly if it is the first that belongs to the access; else it is counted |
| MailboxChannel.Channel.DrainFor | src/internal/soem/soem_backend.cpp:1055-1077 | the loop refines "keep the first match in queue order, count all others by kind" |
| MailboxChannel.Channel.Report | src/internal/soem/soem_backend.cpp:1089-1109 | exactly one counter goes up: emergencies or timeouts for those kinds, aborts for every other |
| MailboxChannel.Channel.FinishMailboxAccess | src/internal/soem/soem_backend.cpp:1126-1136 | failure is reported if and only if an event is returned; a missing answer yields a counted timeout |
| MailboxChannel.Channel.FinishFoeAccess | src/internal/soem/soem_backend.cpp:1138-1154 | failure if and only if an event is returned; on a failed transfer the drained event is counted and replaced |
| MailboxChannel.Channel.AccessSdo | src/internal/soem/soem_backend.cpp:163-258 | refused exactly in PreInit and Shutdown or off the bus, then without effect; otherwise stale records are counted first and only records of this transfer decide the result |
| MailboxChannel.Channel.AccessFoe | src/internal/soem/soem_backend.cpp:640-706 | the same for FoE transfers |
| MailboxChannel.KeptIsFirstSolicited | src/internal/soem/soem_backend.cpp:1055-1077 | the kept event is the first solicited record of the transfer; none is kept exactly if there is none |
| MailboxChannel.SdoOutcomeCoherent | src/internal/soem/soem_backend.cpp:1126-1136 | an SDO access fails iff the working counter is too low or the device answered, and then carries that answer or a timeout |
| MailboxChannel.SdoSucceedsIff | src/internal/soem/soem_backend.cpp:195-217 | success iff a positive counter, no answer on the error list, and the requested size if sizes are checked; another size is an error naming it; the working counter and the size read are always reported |
| MailboxChannel.FoeOutcomeCoherent | src/internal/soem/soem_backend.cpp:1138-1154 | an FoE access fails iff it returns an event; its own code overrides what the drain found; timeout kind iff the counter is 0; the size reported never exceeds the buffer and is 0 on failure |
| MailboxChannel.SdoConserves | src/internal/soem/soem_backend.cpp:1126-1136 | per access: counted plus handed over equals pushed plus made up, as multisets |
| MailboxChannel.FoeConserves | src/internal/soem/soem_backend.cpp:1138-1154 | the same for FoE, including the path that counts and replaces the drained event |
| MailboxThreads.HolderKeepsFresh | src/internal/soem/soem_backend.cpp:170-217 | each action of the mutex holder keeps: records on the list were pushed after the opening drain of the access in flight |
| MailboxThreads.RunFresh | src/internal/soem/soem_backend.cpp:1055-1087 | that invariant holds in every run of any number of accesses, service drains and OD reads |
| MailboxThreads.DrainsEmptyTheList | src/internal/soem/soem_backend.cpp:1055-1087 | every drain pops in queue order and ends only on an empty list |
| MailboxThreads.RunAttribution | src/internal/soem/soem_backend.cpp:1055-1077 | in every state of every run, what the access in flight has kept is the first answer popped since its opening drain |
| MailboxThreads.HandedEventsAreFresh | src/internal/soem/soem_backend.cpp:170-217 | an event handed to a caller was pushed after that caller's own opening drain, is from its device and no emergency; failure iff event |
| MailboxThreads.OutcomesAreAttributed | src/internal/soem/soem_backend.cpp:1055-1154 | for any threads: an access succeeds iff its counter is positive and no answer to it was popped; it hands over the first such answer, a timeout only if there is none, and for a failed FoE transfer the event of its return value |
| MailboxThreads.SdoOutcomeAsAlone | src/internal/soem/soem_backend.cpp:1126-1136 | whatever other threads do, an SDO access returns what the drain of one access would return on the records popped since its opening drain |
| MailboxThreads.PoppedExactlyOnce | src/internal/soem/soem_backend.cpp:1055-1109 | at any moment every popped record is in exactly one place: counted, in flight or handed over |
| MailboxThreads.RunMadeUp | src/internal/soem/soem_backend.cpp:1126-1154 | in every state of every run a made-up event has been counted exactly as often as it was made up |
| MailboxThreads.MadeUpCountedAndHanded | src/internal/soem/soem_backend.cpp:1126-1154 | every timeout and FoE event made up is counted exactly once, and is handed over exactly once or about to be |
| MailboxThreads.RunBalance | src/internal/soem/soem_backend.cpp:1055-1154 | for each single event, places it was put = times popped + twice the times made up, in every state of every run |
| MailboxThreads.RunTotals | src/internal/soem/soem_backend.cpp:1089-1109 | the three counters always equal the counted events by kind; popped records and made-up events are accounted for separately |
| MailboxThreads.CountersConserve | src/internal/soem/soem_backend.cpp:1089-1154 | whenever the mutex is free, aborts + timeouts + emergencies = popped records − popped records handed over + made-up events, and every made-up event has been handed over |
| TimeSpecs.NsInjective | include/duatic_ethercat_interface/precision_update_rate.hpp:45-59 | normalised values correspond one to one to instants; smaller-than agrees with the instants and with a negative diff |
| TimeSpecs.AddIsExact | include/duatic_ethercat_interface/precision_update_rate.hpp:67-80 | one correction after truncated division restores the normal form for either sign, and the sum is exact |
| TimeSpecs.AddDiffInverse | include/duatic_ethercat_interface/precision_update_rate.hpp:56-80 | diff inverts add and add inverts diff |
| TimeSpecs.AddAssociates | include/duatic_ethercat_interface/precision_update_rate.hpp:67-80 | adding in two parts equals adding the sum |
| UpdateRates.HighPrecisionSleep | include/duatic_ethercat_interface/precision_update_rate.hpp:101-111 | returns at the first reading not before the target, and terminates on a clock that passes every instant |
| UpdateRates.PrecisionUpdateRate.Reset | include/duatic_ethercat_interface/precision_update_rate.hpp:140-147 | the deadline becomes the current time and the statistics are cleared |
| UpdateRates.PrecisionUpdateRate.Step | include/duatic_ethercat_interface/precision_update_rate.hpp:159-184 | late by d: overrun, delay d added, and the deadline one step from the reading; else the deadline moves by step plus offset and the delay is 0; on return the clock has reached the deadline |
| UpdateRates.DeadlineLedger | include/duatic_ethercat_interface/precision_update_rate.hpp:140-184 | deadline = reset time + n·step + offsets + accumulated delay + overruns·step exactly; accumulated delay is the sum of the reported delays |
| UpdateRates.RateFloor | include/duatic_ethercat_interface/precision_update_rate.hpp:159-184 | n calls take at least n steps plus offsets, exactly that without overruns (no drift) |
| UpdateRates.OverrunResynchronises | include/duatic_ethercat_interface/precision_update_rate.hpp:171-179 | over any run each overrun reports its full delay and sets the deadline one step from the reading that showed it, however many deadlines had passed |
| UpdateRates.OnTimeAfterOverrun | include/duatic_ethercat_interface/precision_update_rate.hpp:159-184 | after an overrun a call made within two steps and its offset is on time again |
| UpdateRates.NoOverrunNoDelay | include/duatic_ethercat_interface/precision_update_rate.hpp:171-179 | delay accumulates if and only if some deadline was missed |
| DcSync.DCSyncController.Update | include/duatic_ethercat_interface/distributed_clock_sync.hpp:48-63 | the in-place update computes the folded residue, accumulates it, and returns the truncated PI demand |
| DcSync.DCSyncController.Reset | include/duatic_ethercat_interface/distributed_clock_sync.hpp:65-69 | integral and error are cleared |
| DcSync.ResidueCongruent | include/duatic_ethercat_interface/distributed_clock_sync.hpp:50-54 | the residue differs from its input by whole cycles, for either sign |
| DcSync.ResidueLeast | include/duatic_ethercat_interface/distributed_clock_sync.hpp:50-56 | from the sync offset on, no multiple of the cycle is nearer, and the error is at most half a cycle |
| DcSync.ResidueHalfCycleIff | include/duatic_ethercat_interface/distributed_clock_sync.hpp:50-56 | the half-cycle bound holds if and only if the time is not before the offset or at most half a cycle before it, modulo the cycle |
| DcSync.ErrorBeforeOffset | include/duatic_ethercat_interface/distributed_clock_sync.hpp:50-57 | a DC time before the sync offset whose reported error is nearly a whole cycle, next to the same phase after it |
| DcSync.TruncationBelowOne | include/duatic_ethercat_interface/distributed_clock_sync.hpp:59-62 | the int64 truncation perturbs each correction by less than 1 ns and never enlarges it |
| DcSync.IntegralBound | include/duatic_ethercat_interface/distributed_clock_sync.hpp:48-63 | after n updates the integral is at most n·cycle/2 in magnitude |
| DcSync.CorrectionBound | include/duatic_ethercat_interface/distributed_clock_sync.hpp:48-63 | the correction is at most (p + i·n)·cycle/2, and deadlines strictly increase while (p + i·n)/2 < 1 |
| ClosedLoop.Descent | include/duatic_ethercat_interface/distributed_clock_sync.hpp:35-63 | the exact change of V over one cycle: a negative definite form plus the rounding term |
| ClosedLoop.Contraction | include/duatic_ethercat_interface/distributed_clock_sync.hpp:35-63 | without rounding V shrinks by at least one part in 100 000 per cycle |
| ClosedLoop.RoundedDescent | include/duatic_ethercat_interface/distributed_clock_sync.hpp:56-62 | with a rounding error below 1 ns V loses at least 0.79 ns² while the error is 101 ns or more, and never grows beyond a fixed floor |
| ClosedLoop.FirstUpdateLocks | include/duatic_ethercat_interface/distributed_clock_sync.hpp:48-69 | the first update after a reset puts the loop in lock when the measured phase error is small enough |
| ClosedLoop.CycleStaysInLock | include/duatic_ethercat_interface/executor.hpp:93-108 | one cycle of update, step and next sample, in exact integers: no wrap of the residue, deadline moves on, V as in RoundedDescent |
| ClosedLoop.LoopStaysInLock | include/duatic_ethercat_interface/executor.hpp:93-108 | over any number of on-time cycles the truncated loop stays in lock and never wraps |
| ClosedLoop.LargeErrorsCost | include/duatic_ethercat_interface/executor.hpp:93-108 | after n consecutive cycles that all ended with 101 ns or more, V has lost 0.79·n |
| ClosedLoop.LoopRecovers | include/duatic_ethercat_interface/executor.hpp:93-108 | among more than m/0.79 consecutive on-time cycles in lock at level m, one ends with an error below 101 ns |
| ClosedLoop.RemainderIs | include/duatic_ethercat_interface/distributed_clock_sync.hpp:50-51 | for non-negative times the repeated-subtraction remainder of the real model is t − cycle·⌊t/cycle⌋ |
| ClosedLoop.RealResidueOf | include/duatic_ethercat_interface/distributed_clock_sync.hpp:50-54 | a time less than half a cycle from a multiple of the cycle is reduced to its distance from it, for any real cycle time |
| ClosedLoop.IdealCycleContracts | include/duatic_ethercat_interface/executor.hpp:93-108 | for any cycle time, if V < (cycle/2)² and the time is not before the offset, both stay so, the next error is exactly error − correction, and V contracts |
| ClosedLoop.IdealLoopConverges | include/duatic_ethercat_interface/executor.hpp:93-108 | for any cycle time, after n cycles V is at most its initial value reduced n times by one part in 100 000, and the residue reduction never wraps |
| ClosedLoop.IdealStrictDecrease | include/duatic_ethercat_interface/executor.hpp:93-108 | for any cycle time V strictly decreases every cycle until error and integral are both zero |
| Devices.Resized | include/duatic_ethercat_interface/ethercat_device.hpp:172-174 | growing a buffer keeps its bytes and appends zeros; shrinking keeps a prefix |
| Devices.EthercatDevice.PdoConfigured | include/duatic_ethercat_interface/ethercat_device.hpp:168-178 | both buffers get exactly the configured sizes and access is enabled |
| Devices.EthercatDevice.SetGenericRxPdo | include/duatic_ethercat_interface/ethercat_device.hpp:249-260 | refused unless configured and of the buffer's size; otherwise the whole value replaces the buffer |
| Devices.EthercatDevice.GetGenericTxPdo | include/duatic_ethercat_interface/ethercat_device.hpp:267-277 | refused unless configured and of the buffer's size; otherwise the whole buffer is returned |
| PdoRegions.CopyInto | src/internal/soem/soem_backend.cpp:604-620 | the byte copy replaces exactly the region |
| PdoRegions.FilledRegions | src/internal/soem/soem_backend.cpp:866-876 | after copying to disjoint regions each holds its own whole value and all other bytes are unchanged |
| PdoRegions.CycleMap | src/internal/soem/soem_backend.cpp:866-902 | outputs then inputs: every region holds its value at the end of the cycle, unused bytes never change |
| Backend.BackendImpl.constructor | src/internal/soem/soem_backend.cpp:61-68 | a new bus is in PreInit, manages no devices, satisfies the invariant, and has a DC controller with the configured cycle and offset and the default gains |
| Backend.BackendImpl.Initialize | src/internal/soem/soem_backend.cpp:78-137 | succeeds iff in PreInit with an interface and devices found; creates devices with ids 1..n; otherwise nothing changes |
| Backend.BackendImpl.AcquireDevice | src/internal/soem/soem_backend.cpp:139-156 | succeeds iff Initialized and the id is on the bus, and then returns the device with that id |
| Backend.BackendImpl.Startup | src/internal/soem/soem_backend.cpp:277-349 | on success Configured with all buffers sized to the mapped regions; on either failure Shutdown, with on_startup as the only hook phase; the mapping stays recorded either way |
| Backend.BackendImpl.ConfigureAll | src/internal/soem/soem_backend.cpp:342-348 | every device's buffers get exactly its Obytes and Ibytes |
| Backend.BackendImpl.Activate | src/internal/soem/soem_backend.cpp:351-390 | succeeds iff Configured and every device accepts and reaches SAFE_OP; a refusal ends in Shutdown with the shutdown hooks run |
| Backend.BackendImpl.Shutdown | src/internal/soem/soem_backend.cpp:392-443 | ends in Shutdown with no devices and keeps the invariant; the two shutdown phases run iff process data had been configured; refused only while shutting down |
| Backend.BackendImpl.WriteRxPdo | src/internal/soem/soem_backend.cpp:604-620 | accepted in every state but the first two iff on the bus and of the region's size; then replaces exactly that region, or the region is not inside the IO map and nothing is claimed |
| Backend.BackendImpl.ReadTxPdo | src/internal/soem/soem_backend.cpp:622-638 | accepted under the same conditions on the input region; then returns its bytes, or it is not inside the IO map |
| Backend.DirectAccessInsideIff | src/internal/soem/soem_backend.cpp:302-306 | all regions lie in the IO map iff the size reported by SOEM did not exceed the buffer; otherwise startup was refused and the bus is in Shutdown |
| BusSessions.WriteAfterOversizedMapping | src/internal/soem/soem_backend.cpp:302-306 | an input for which a direct write after a refused startup is accepted although its region is not inside the IO map |
| Backend.BackendImpl.UpdateWrite | src/ethercat_device.cpp:66-71 | the dispatch copies the device's whole rx value to its output region and cannot fail |
| Backend.BackendImpl.UpdateRead | src/ethercat_device.cpp:73-78 | the dispatch copies the device's whole input region to its tx buffer and cannot fail |
| Backend.BackendImpl.WriteAll | src/internal/soem/soem_backend.cpp:871-874 | the write loop puts every device's value into its own region |
| Backend.BackendImpl.ReadAll | src/internal/soem/soem_backend.cpp:899-902 | the read loop makes every tx buffer equal to its input region |
| Backend.BackendImpl.PdoUpdate | src/internal/soem/soem_backend.cpp:866-908 | a whole cycle determines the IO map, all tx buffers, the DC controller and the correction; bytes outside all regions are untouched |
| Backend.BackendImpl.UpdateRt | src/internal/soem/soem_backend.cpp:460-467 | refused exactly outside Activated and Operational, then without effect; otherwise no size or bus error can occur, the frame sent carries every device's value, regions and buffers agree, the DC correction with the default gains is returned iff enabled, and the frame is counted iff enabled |
| Backend.BackendImpl.UpdateDiagnosticsFast | src/internal/soem/soem_backend.cpp:970-985 | a frame is counted as sent and as lost or mismatched, never both, by its working counter |
| Backend.FramesAddUp | src/internal/soem/soem_backend.cpp:976-985 | over any cycles the frames sent are those lost, those answered with a wrong counter and those that came back complete, each counted by its own counter |
| RealtimeLoop.Iterate | include/duatic_ethercat_interface/executor.hpp:93-108 | one turn: the correction update_rt returns for this DC sample is the offset of the next deadline |
| RealtimeLoop.Spin | include/duatic_ethercat_interface/executor.hpp:93-108 | any number of turns on one backend: each deadline and controller state follows from the previous as in the closed loop |
| RealtimeLoop.SpinIsLockedRun | include/duatic_ethercat_interface/executor.hpp:93-108 | if samples follow the deadlines and nothing overruns, those turns are a run of the closed loop, so its stability results hold of this backend |
| Backend.BackendImpl.UpdateService | src/internal/soem/soem_backend.cpp:469-476 | the bus state and the activation start follow the timeout rule; fails iff never initialized or shut down by now; asks for another call iff it found the bus Activated or background diagnostics are on |
| Backend.BackendImpl.BringToOperational | src/internal/soem/soem_backend.cpp:921-954 | Shutdown, with its hooks, iff an enabled timeout has passed since the first call; otherwise Operational iff the refresh showed every device operational |
| Backend.SetRxPdo | include/duatic_ethercat_interface/ethercat_device.hpp:249-260 | a user setting a value between calls keeps the bus invariant; on a mapped bus it is accepted iff it has the region's size |
| Backend.HookTraces | src/internal/soem/soem_backend.cpp:277-443 | between public calls each device's hook trace is a documented one: in lifecycle order, none twice, complete pairs, and after configuration the shutdown hooks have run iff the bus is shut down |
| Backend.TraceIsPhases | src/internal/soem/soem_backend.cpp:277-443 | every device's trace is the list of completed phases: all devices see the same |
| Backend.PhasesDoNotOverlap | src/internal/soem/soem_backend.cpp:277-443 | the j-th hook call of the bus belongs to phase j/n and device j%n: no device enters a phase before all finished the last |
| Backend.StillActivated | src/internal/soem/soem_backend.cpp:921-933 | a bus still Activated has recorded its first service call as the start, and at most the timeout has passed |
| Backend.CallDecides | src/internal/soem/soem_backend.cpp:921-952 | a call on a bus still Activated shuts down iff the timeout is enabled and has passed since the first call, else goes to Operational iff all devices are operational, else stays |
| Backend.HealthyBusBecomesOperational | src/internal/soem/soem_backend.cpp:943-952 | a bus whose devices all are operational at some call not after the timeout ends up Operational |
| Backend.LeavesActivatedInTime | src/internal/soem/soem_backend.cpp:921-954 | with calls at most D apart the bus leaves Activated within timeout + D: to Shutdown iff the timeout had passed, else to Operational with all devices operational |
| BusSessions.RunSession | include/duatic_ethercat_interface/ethercat_bus.hpp:50-86 | after any sequence of public calls with any answers of SOEM: valid bus, documented hook traces, fitting buffers, and regions inside the IO map iff the mapping fitted |
| PdoAtomicity.StepKeepsInv | src/ethercat_device.cpp:66-78 | every lock, byte, and release step of any thread keeps: a buffer being written is new bytes in front of old ones, all others hold whole values |
| PdoAtomicity.LocksAscend | src/ethercat_device.cpp:66-78 | every copy takes its mutexes in the order that excludes deadlock |
| PdoAtomicity.Exclusive | include/duatic_ethercat_interface/ethercat_device.hpp:232-277 | no two threads copy to one buffer, and none reads a buffer another is writing |
| PdoAtomicity.NoTornValue | src/internal/soem/soem_backend.cpp:588-638 | over any run a buffer is torn only while its writer holds its mutex |
| PdoAtomicity.ValuesAreOffered | include/duatic_ethercat_interface/ethercat_device.hpp:249-260 | every buffer's value, frame sent included, was handed in whole for that device and direction, or was there initially |
| PdoAtomicity.CopyDelivers | src/ethercat_device.cpp:66-78 | an update_write, update_read or getter delivers exactly the one value its source held during the whole copy |
| PdoAtomicity.CopyProgresses | src/ethercat_device.cpp:66-78 | a copy that has its mutexes can always copy its next byte or complete |
| ObjectDictionaries.First | include/duatic_ethercat_interface/object_dictionary.hpp:191-203 | linear search: the first matching position, or no entry matches |
| ObjectDictionaries.SearchIs | include/duatic_ethercat_interface/object_dictionary.hpp:148-161 | the search yields the entry at the first matching position, and nothing only if no entry matches |
| ObjectDictionaries.ObjectDictionary.RebuildLookup | include/duatic_ethercat_interface/object_dictionary.hpp:191-203 | both maps point, for exactly the occurring keys, to the first entry in the own storage |
| ObjectDictionaries.ObjectDictionary.FromEntries | include/duatic_ethercat_interface/object_dictionary.hpp:67-70 | a new dictionary holds the entries and answers like linear search |
| ObjectDictionaries.ObjectDictionary.CopyOf | include/duatic_ethercat_interface/object_dictionary.hpp:75-78 | a copy has equal entries in storage of its own, with pointers into that storage |
| ObjectDictionaries.ObjectDictionary.MoveFrom | include/duatic_ethercat_interface/object_dictionary.hpp:95-102 | the buffer changes owner with its pointers still valid; the source answers no lookup |
| ObjectDictionaries.ObjectDictionary.CopyAssign | include/duatic_ethercat_interface/object_dictionary.hpp:83-90 | entries become the other's, in own storage; self-assignment changes nothing |
| ObjectDictionaries.ObjectDictionary.MoveAssign | include/duatic_ethercat_interface/object_dictionary.hpp:107-119 | the buffer changes owner and the source is left empty; self-assignment changes nothing |
| ObjectDictionaries.ObjectDictionary.HasIndex | include/duatic_ethercat_interface/object_dictionary.hpp:128-131 | true iff some stored entry has the index |
| ObjectDictionaries.ObjectDictionary.HasName | include/duatic_ethercat_interface/object_dictionary.hpp:138-141 | true iff some stored entry has the name |
| ObjectDictionaries.ObjectDictionary.AtIndex | include/duatic_ethercat_interface/object_dictionary.hpp:148-151 | following the cached pointer yields an entry with the index that no earlier entry has; out_of_range iff no entry has it |
| ObjectDictionaries.ObjectDictionary.AtName | include/duatic_ethercat_interface/object_dictionary.hpp:158-161 | the same by name |
| ObjectDictionaries.Execute | include/duatic_ethercat_interface/object_dictionary.hpp:67-119 | one operation on a pool of dictionaries acts on the lists they stand for and leaves no two sharing storage |
| ObjectDictionaries.RunScript | include/duatic_ethercat_interface/object_dictionary.hpp:67-119 | after any sequence of constructions, copies, moves and self-assignments every dictionary is valid for its own list |
| ObjectDictionaries.IndexLookups | include/duatic_ethercat_interface/object_dictionary.hpp:128-151 | in any pool each lookup by index goes through a pointer into the dictionary's own storage to the first entry of its own list with that index |
| ObjectDictionaries.NameLookups | include/duatic_ethercat_interface/object_dictionary.hpp:138-161 | the same by name |
| OddIntegers.ReadOddInt | include/duatic_ethercat_interface/internal/tools/sdo_print_helper.hpp:65-83 | OR-ing shifted bytes and the xor-and-subtract sign extension give the little-endian, two's-complement value |
| OddIntegers.OrAbove | include/duatic_ethercat_interface/internal/tools/sdo_print_helper.hpp:73-76 | OR-ing bits above all set ones adds them |
| OddIntegers.SignExtension | include/duatic_ethercat_interface/internal/tools/sdo_print_helper.hpp:78-81 | (v xor sign) − sign, wrapped to 64 bits and cast to int64, is the two's-complement value of v |
| OddIntegers.LittleEndian | include/duatic_ethercat_interface/internal/tools/sdo_print_helper.hpp:73-76 | the value of n bytes is below 2^(8n) |
| OddIntegers.LeastSignificantFirst | include/duatic_ethercat_interface/internal/tools/sdo_print_helper.hpp:73-76 | the first byte on the wire is the least significant: each further byte weighs 256 times more |
| OddIntegers.DecodeEncode | include/duatic_ethercat_interface/internal/tools/sdo_print_helper.hpp:65-83 | decoding inverts encoding for every in-range integer, signed and unsigned |
| OddIntegers.EncodeDecode | include/duatic_ethercat_interface/internal/tools/sdo_print_helper.hpp:65-83 | every byte string decodes to an in-range number whose encoding it is |
| OddIntegers.ReadBits | include/duatic_ethercat_interface/internal/tools/sdo_print_helper.hpp:85-93 | masking yields the byte modulo 2^bits |
| PortDiagnostics.Diagnostics.UpdateSlow | src/internal/soem/soem_backend.cpp:1004-1025 | the m-th refresh is in range, works on slave m mod n and changes only that slave's entry |
| PortDiagnostics.SelectedAfter | src/internal/soem/soem_backend.cpp:1004-1010 | the lazily wrapped cursor visits the slaves in cyclic order |
| PortDiagnostics.EachSlaveOnce | src/internal/soem/soem_backend.cpp:1004-1025 | any n consecutive refreshes work on every slave exactly once |
| PortDiagnostics.FairShare | src/internal/soem/soem_backend.cpp:1004-1025 | after m refreshes each slave has had m/n of them, rounded down or up |
| PortDiagnostics.Balanced | src/internal/soem/soem_backend.cpp:1004-1025 | no two slaves' refresh counts differ by more than one |

## Left out

- SOEM itself: working counters, device states, error records, region layout and sizes are arbitrary inputs. Its regions are taken not to overlap and to be empty before mapping, the map size it reports to be where the last region ends, and its slave count to be what `ecx_config_init` returned.
- SOEM's numbering of error types is not part of this model; any numbering is allowed.
- Integer widths: times and counters are unbounded, so overflow of `int64_t` times and 64-bit counters is not modelled.
- Floating point: the DC integral is an exact sum of whole nanoseconds (as `double` is below 2^53) and the gains are reals; only the truncation to `int64_t` is kept.
- Time stamps and description texts of mailbox events, and logging.
- Clocks: a reading is any value of a sequence that never goes back and eventually passes every instant; the coarse sleep only skips readings.
- MailboxThreads: only the holder of the mailbox mutex has a program counter; waiting threads have no state of their own.
- Documented use only: hooks that throw or re-enter the bus's lifecycle calls, and a direct `shutdown` while the loops spin, are outside the lifecycle and backend models.
- A realtime cycle that has already passed its state check when the service thread shuts the bus down: no claim is made about it, nor about device back-pointers after the bus is gone.
- Backend.BackendImpl.WriteRxPdo: makes no claim about the effect of an accepted access to a region outside the IO map, which is undefined in the source.
- Backend.BackendImpl.UpdateRt: the process data received is a parameter; a failed send is only logged by the source.
- Backend.BackendImpl.UpdateService: mailbox drain, device state table and port diagnostics are modelled in their own files.
- ContextUse: the lifecycle calls are one process, as Lifecycle shows; other users of the context (states, process data, diagnostics registers) are not part of it.
- Hook calls are recorded in one bus-wide log from which each device's trace is derived.
- ObjectDictionaries.ObjectDictionary.CopyAssign: allocates fresh storage, where a vector may reuse its own buffer; both rebuild the pointers.
- PdoAtomicity: each region is a buffer of its own, justified by the disjoint layout in PdoRegions; the frame is sent one region at a time.
- Executor error capture and timing statistics, per-slave fast diagnostics, register access, OD reading over SDO info, device-state enum mapping, NIC queries, thread priorities, `bus_scanner` and `demo`: forwarding, printing or foreign calls that would only add easy members.
