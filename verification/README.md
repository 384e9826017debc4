# The Vita pthread library: synchronisation, verified

The library builds POSIX threads out of plain structure fields and kernel counting
semaphores. Many of the fields are read or written outside any lock, so whether the fields
and the semaphores agree depends on how threads interleave. This project models the
primitives as state machines at the grain of single accesses and proves what they promise
in every run of any number of threads.

## How the model is built

- **Kernel.** `Kernel.dfy` has a counting semaphore with a maximum (a waiter for n units
  proceeds when n are there; a signal past the maximum is refused) and the error numbers.
- **Machines.** Every primitive is a module with a `State`, a program counter per thread
  naming its next shared access, and a total function `Step`. One function per C function
  (`LockAccess`, `UnlockAccess`, `WaitAccess`, ...) follows that function's branches. A blocked
  thread's step changes nothing. A run is `Exec(Step, s, es)` for any sequence of events
  (`Runs.dfy`), so a statement about `Exec` on every `es` is about every interleaving.
  Counts over all threads are sums of weights (`Sums.dfy`).
- **Calls.** The `...Calls` files speak of a whole call in any run: what it has returned and
  done by then, whatever other threads did between its accesses (`CallVerdict`), and that it
  waits only for what is really missing (`Advances`).
- **Undefined calls.** Where the documentation makes a call undefined (unlocking a normal
  mutex, a read-write lock or a spin lock one does not hold), theorems are about
  `LawfulStep`, which ignores such calls; everything the code itself checks is left to the
  code. What the code makes of such unlocks is told by `UnlawfulUnlockBreaksExclusion`,
  `FreeUnlockRefused` and `StrayUnlock`.
- **Objects.** Each C structure is also a class with the structure's fields. Its methods
  change them in place, one access of one C function at a time, and are proved equal to the
  machine's functions; `Perform` dispatches an event, and the loop in `Run` executes a
  schedule.
- **Composition.** The condition variable, `pthread_once` and static initialisation contain
  the mutex machine; the spin lock contains the atomic operations, which themselves run over
  ldrex and strex. What is proved of the inner machine is used in the outer one.

Fields called history in the files (counts of calls returned, logs) are not in the C
structures; they only record what a theorem speaks of.

## Files

| files | what they model |
|---|---|
| Mutex, MutexCalls | normal, errorcheck and recursive mutexes |
| CondVar, CondVarProofs, CondVarTheorems, CondVarCalls, CondVarObject | the condition variable over the mutex |
| RwLock, RwLockCalls | the read-write lock and the lock it refines |
| Barrier, BarrierCalls, BarrierRuns | the barrier, and runs in which its queue overflows or a thread overtakes |
| PriorityCeiling | the PRIO_PROTECT accounting of one thread |
| Keys | thread-specific data and the destructor loop |
| Words, Atomics, AtomicEffects, AtomicMemory | 32-bit words, the retry loops over ldrex/strex, their effect on memory, detach |
| Spin, SpinCalls | the spin lock over the atomics |
| Once, OnceTheorems, OnceCalls, OnceObject, Cleanup | pthread_once over the mutex, and the clean-up stack |
| Gate, StaticInit | EXECUTE_ONCE, and first use of static objects under the global lock |
| Time, ThreadName | timeouts modulo 2^32, and addresses in thread names |

## Where the code and its documentation part

The model follows the code.

- A lock call on a PRIO_PROTECT mutex that times out stays counted, and a trylock is never
  counted (src/pthread_mutex.c:260, 275-278, 378-382, 448), so the ceiling rule quoted at
  src/pthread_mutex.c:248-257 can fail after either. When it holds, exactly, in every run:
  `CeilingRuleIff`; simpler conditions where they suffice: `CeilingRuleIffAtUnlock`,
  `CeilingRuleIffWhileRoomy`, `CeilingRuleIffTimeOutsHidden`; inputs on which the rule fails:
  `ExpiredLockStaysRaised`, `TryLockUnbalances`, `FullCounterDeceives`.
- The scan of unlock stops at 127 (src/pthread_mutex.c:451), so a base priority from 128 on is
  not restored. `CeilingRuleIff` covers it; for untimed successful runs there is the simpler
  `HighBaseRuleIff`; a run that fails: `HighBaseIsNotRestored`.
- The barrier lets a fast thread take the unit meant for a slow one
  (src/pthread_barrier.c:149-150), exactly when it is for two or more threads and enough use
  it to close a round: `OvertakingIffUsable`, `EarlyIffUsable`. Its queue refuses units
  exactly when at least two threads more than the count use it: `OverflowIffCrowded`.
- `test_and_clear_bit` flips the bit (pthread/include/pthread_atomic.h:79), so it clears it
  exactly when it was set: `BitOperationsTouchOneBit`.
- `pthread_spin_unlock` therefore sets the bit of a free lock before it says EPERM
  (src/pthread_spin.c:92), which nobody can undo lawfully: `StrayUnlock`, `JammedForEver`.
- The wait of EXECUTE_ONCE, described as waiting until the execution is done
  (pthread/include/pthread_impl.h:343-347), never reads the word again
  (pthread/include/pthread_impl.h:365): `PassesIffExchangeMissesOne`, `HangsIffShared`,
  `HangsLateIffShared`.
- A time 2^31 microseconds or more ahead is not waited for in full: `DeltaTimeExactIff`.

## Objects

Methods that make one access of one C function in place, each proved equal to the machine's
function for it:

| class | methods | source |
|---|---|---|
| Mutex.PthreadMutex | Lock, Unlock, SetPrioCeiling | src/pthread_mutex.c |
| CondVarObject.PthreadCond | Wait, CallbackHandler, Cleanup, Signal, Broadcast | src/pthread_cond.c |
| RwLock.PthreadRwLock | Lock, Try, Unlock | src/pthread_rwlock.c |
| Barrier.PthreadBarrier | Wait | src/pthread_barrier.c |
| PriorityCeiling.ThreadPriority | Raise | src/pthread_mutex.c |
| Keys.KeySystem | Delete, SetSpecific, GetSpecific | src/pthread_key.c |
| AtomicMemory.Memory | LoadExclusive, StoreExclusive | pthread/include/pthread_atomic.h |
| Spin.PthreadSpinlock | Test, Continue | src/pthread_spin.c |
| OnceObject.PthreadOnce | CallOnce, CleanUp | src/pthread_once.c, src/pthread.c |
| Cleanup.Handlers | PushRoutine, PopRoutine | src/pthread_cleanup.c |
| Gate.ExecuteOnce | Enter | pthread/include/pthread_impl.h |
| StaticInit.StaticObject | Use, Initialise | src/pthread_mutex.c |

## Model

| member | source | states |
|---|---|---|
| `Mutex.MutualExclusion` | src/pthread_mutex.c:176-293 | In every lawful run of any number of threads the semaphore's one unit is accounted for once among free, acquired, holding, cleared-not-signalled and changing the ceiling, so no two threads hold the mutex |
| `Mutex.OwnerTestIsExact` | src/pthread_mutex.c:191-212 | The unlocked test `owner == me` is true exactly while the caller's successful locks outnumber its unlocks; recursivecount is that surplus less one while held and 0 while free |
| `Mutex.MatchedUnlocksNeeded` | src/pthread_mutex.c:419-444 | While a thread's returned locks stay ahead of its unlocks, no other thread's lock, timedlock or trylock succeeds, over whole runs |
| `Mutex.MatchedUnlocksSuffice` | src/pthread_mutex.c:419-444 | Once n acquisitions have had n unlocks the thread owns nothing and its unit is free or with somebody else |
| `Mutex.NonOwnerUnlockChangesNothing` | src/pthread_mutex.c:419-437 | A non-owner's unlock of a recursive or errorcheck mutex returns EPERM and changes nothing, whatever other threads do between its call and its test |
| `Mutex.RefusalsAreExact` | src/pthread_mutex.c:204-213 | trylock says EBUSY exactly while some thread has the unit, lock says EDEADLK exactly to the owner of an errorcheck mutex, and the owner of a recursive mutex never waits for it |
| `Mutex.UnlockVerdictIsExact` | src/pthread_mutex.c:419-444 | An unlock that returns gives 0 and takes off one level exactly if its caller holds the mutex, else EPERM; its signal always fits |
| `Mutex.HeldMutexRefusesOthers` | src/pthread_mutex.c:369-385 | No step of anybody lets a second thread acquire a held mutex |
| `Mutex.ExclusionBreaksIff` | src/pthread_mutex.c:405-444 | With no condition on who unlocks, some run has two threads that have locked and not since unlocked, if and only if the mutex is normal and at least two threads use it |
| `Mutex.UnlawfulUnlockBreaksExclusion` | src/pthread_mutex.c:436-444 | On a normal mutex with at least three threads, an unlock by a stranger lets two threads hold it that never unlocked |
| `MutexCalls.CallVerdict` | src/pthread_mutex.c:176-527 | Whole calls, from call to return with anything by the others in between, in every lawful run: lock, timedlock and trylock return 0 exactly with the caller one level deeper and the owner; ETIMEDOUT exactly when a timed call times out, EDEADLK exactly to the owner of an errorcheck mutex, EBUSY from trylock alone and never to the owner of a recursive mutex, all three with its locks as they were; unlock returns 0 and takes off a level exactly if the caller held the mutex when it called, else EPERM; setprioceiling returns 0 with the ceiling given |
| `MutexCalls.Advances` | src/pthread_mutex.c:191-293 | Every own access brings a call nearer to its return; only lock, timedlock and setprioceiling ever wait, and only while some thread has the unit |
| `MutexCalls.TimedCallCanGiveUp` | src/pthread_mutex.c:270-276 | A timed call that waits can time out, and has then returned ETIMEDOUT |
| `MutexCalls.FreeUnlockRefused` | src/pthread_mutex.c:419-437 | An unlock during which nobody owns the mutex, of any kind, returns EPERM in every run, lawful or not, and changes nothing |
| `Mutex.PthreadMutex.Run` | src/pthread_mutex.c:176-477 | Any schedule of calls on a checking mutex is a run of the machine and keeps its invariant |
| `CondVarTheorems.Conservation` | src/pthread_cond.c:181-228 | In every run, time-outs racing with signals included: NbWait plus units equals waiters not woken, plus timed-out ones not uncounted, plus posts not subtracted; no post is refused; units in excess of waiters are at most the waits that timed out so far |
| `CondVarTheorems.NoLostWakeup` | src/pthread_cond.c:277-289 | Whenever a signal or broadcast decides to do nothing, with control or without, every waiter already has a unit |
| `CondVarTheorems.SignalPostsOne` | src/pthread_cond.c:280-289 | A signal that acts posts one unit and is never refused |
| `CondVarTheorems.BroadcastReachesEveryone` | src/pthread_cond.c:302-318 | When a broadcast resets NbWait every waiter has a unit, even if NbWait was short because of time-outs |
| `CondVarTheorems.WaitIsAtomic` | src/pthread_cond.c:181-204 | A waiter that has released any level of the mutex is already counted, so a later signal that does nothing leaves a unit for it |
| `CondVarTheorems.CountedBeforeReleased` | src/pthread_cond.c:181-204 | Until it is counted, a waiter still owns the mutex at the depth at which it called |
| `CondVarTheorems.WaitRestoresDepth` | src/pthread_cond.c:130-141 | A wait called at depth d returns owning the mutex at exactly depth d, result 0 or (timed) ETIMEDOUT, whatever all threads do in between, through the mutex's own lock and unlock |
| `CondVarTheorems.TimeOutIsReported` | src/pthread_cond.c:203-231 | A wait returns ETIMEDOUT if and only if it timed out on the way, however the time-out raced with signals |
| `CondVarTheorems.ControllerMoves` | src/pthread_cond.c:35-43 | Who holds control is never at a blocking access of the mutex and its next step is enabled |
| `CondVarTheorems.ControlHolderMoves` | src/pthread_cond.c:280-289 | In every reachable state with control taken, exactly one thread has it and that thread can move |
| `CondVarTheorems.ControlIsGivenBack` | src/pthread_cond.c:35-43 | From every reachable state, whatever the others do, the holder of control gives it back within a number of its own accesses that ControlLeftBound bounds |
| `CondVarTheorems.ControlLeftBound` | src/pthread_cond.c:35-43 | That number is at most 6 per level of the mutex and 5 more for a thread in a wait, and 4 for a signaller or broadcaster |
| `CondVarTheorems.RefinesMutex` | src/pthread_cond.c:35-40 | Every run of the condition variable is, at its mutex, a lawful run of the mutex machine |
| `CondVarCalls.SignalCallVerdict` | src/pthread_cond.c:271-292 | A whole signal, in every run: returns 0 and has posted exactly one unit, or has posted none and at one of its own accesses every waiter had a unit |
| `CondVarCalls.BroadcastCallVerdict` | src/pthread_cond.c:295-322 | A whole broadcast, in every run: returns 0, and at one of its own accesses every waiter had a unit |
| `CondVarCalls.WaitCallVerdict` | src/pthread_cond.c:164-232 | A whole wait, in every run: returns owning the mutex at the depth it had, after having been blocked as a counted waiter with the mutex given up entirely; 0 exactly if it took one unit, ETIMEDOUT exactly if it timed out and took none |
| `CondVarCalls.TimedWaitCanGiveUp` | src/pthread_cond.c:203-231 | A timed wait that is blocked can time out, and its result is then to be ETIMEDOUT |
| `CondVarCalls.Advances` | src/pthread_cond.c:164-322 | Every own access brings a call nearer to its return, except that it waits for control or the mutex while some thread has it, and for a unit while there is none |
| `CondVarObject.PthreadCond.Run` | src/pthread_cond.c:164-322 | Any schedule of waits, signals, broadcasts, time-outs and mutex calls keeps the counting |
| `RwLock.Refinement` | src/pthread_rwlock.c:164-343 | At single-access grain the units and flag refine a readers-xor-one-writer lock: each event is one step of it, and exclusion holds throughout |
| `RwLock.UnitsAndFlagAlwaysAgree` | src/pthread_rwlock.c:164-175 | Free units plus holds (MAX_COUNT for a writer) are MAX_COUNT; writelock is set exactly while one writer has all units and has not begun to give them back |
| `RwLock.UnlockGivesBackWhatWasTaken` | src/pthread_rwlock.c:330-343 | A holder's unlock signals exactly the units it took, and they always fit, whatever the flag did meanwhile |
| `RwLock.TryIsExact` | src/pthread_rwlock.c:274-283 | trywrlock is refused exactly when somebody holds the lock, tryrdlock exactly when all units are out |
| `RwLock.AbstractStepKeepsExclusion` | src/pthread_rwlock.c:130-150 | The specification lock itself never lets a reader and a writer, or two writers, in together |
| `RwLockCalls.CallVerdict` | src/pthread_rwlock.c:152-344 | Whole calls, in every lawful run: one that returns 0 has given its caller exactly the hold it asked for, the write hold to a thread without holds or one read hold; ETIMEDOUT exactly when a timed call times out, EBUSY from the try calls alone, both with its holds as they were; unlock returns 0 and takes the write hold or one read hold |
| `RwLockCalls.Advances` | src/pthread_rwlock.c:164-343 | Every own access brings a call nearer to its return, except that a blocking writer waits while somebody has a hold and a blocking reader while all units are out |
| `RwLockCalls.TimedCallCanGiveUp` | src/pthread_rwlock.c:164-175 | A timed call that waits can time out, and has then returned ETIMEDOUT with its holds as they were |
| `RwLockCalls.FreeUnlockRefused` | src/pthread_rwlock.c:330-343 | An unlock during which nobody has the lock returns EINVAL in every run, lawful or not, and changes nothing |
| `RwLock.PthreadRwLock.Run` | src/pthread_rwlock.c:152-344 | Any schedule keeps units and flag in agreement and exclusion |
| `Barrier.Conservation` | src/pthread_barrier.c:141-163 | Between control sections the threads waiting are the queue's units plus the counter (plus units refused); at most N * floor(arrivals / N) calls have returned, and exactly one serial result is given per N arrivals |
| `Barrier.NeverAllStuck` | src/pthread_barrier.c:146-151 | While nothing was refused, with N threads waiting there is a unit for one of them |
| `Barrier.ControllerMoves` | src/pthread_barrier.c:141-162 | Whoever holds control can move |
| `Barrier.ControlIsGivenBack` | src/pthread_barrier.c:141-162 | From every reachable state, whatever the others do, the holder of control gives it back within five accesses of its own |
| `Barrier.FewThreadsNeverOverflow` | src/pthread_barrier.c:112-114 | With at most N + 1 threads, in particular N, the queue never refuses a unit |
| `Barrier.ParticipantsNeverStuck` | src/pthread_barrier.c:141-163 | With at most N + 1 threads nothing is ever refused, and N of them can never all wait without a unit for one |
| `BarrierRuns.OverflowIffCrowded` | src/pthread_barrier.c:112-163 | Some run makes the queue refuse units if and only if N >= 2 and at least N + 2 threads use the barrier |
| `BarrierRuns.CrowdOverflows` | src/pthread_barrier.c:154-161 | The run, for every N and every such crowd |
| `BarrierRuns.EarlyIffUsable` | src/pthread_barrier.c:146-151 | Some run lets a call go through a round that was not closed before it returned, if and only if N >= 2 and at least N threads use the barrier |
| `BarrierRuns.OvertakingIffUsable` | src/pthread_barrier.c:149-150 | And exactly then some run lets a thread return twice, the second time from a round not closed, while one already waiting has not returned and no unit is left for it |
| `BarrierRuns.TwiceMeanwhileIffUsable` | src/pthread_barrier.c:149-150 | And exactly then some run merely lets a thread return twice while one already waiting does not return |
| `BarrierRuns.LastOvertakesFirst` | src/pthread_barrier.c:141-163 | The run, for every such N and number of threads |
| `BarrierCalls.CallVerdict` | src/pthread_barrier.c:135-165 | A whole call, in every run: it arrives once, and returns the serial result having closed one round and taken no unit, or 0 having closed none and taken one |
| `BarrierCalls.Advances` | src/pthread_barrier.c:141-163 | Every own access brings a call nearer to its return, except that it waits for control while some thread has it and in the queue while it is empty |
| `BarrierCalls.SomebodyReturns` | src/pthread_barrier.c:146-163 | With at most N + 1 threads, whenever N wait and nobody is in a control section, one of them returns 0 at its next access |
| `Barrier.PthreadBarrier.Run` | src/pthread_barrier.c:135-165 | Any schedule keeps the conservation and the bound on returns |
| `PriorityCeiling.CountersInEveryRun` | src/pthread_mutex.c:246-268 | In every run each counter is mutexes held or awaited plus time-outs minus trylocks, modulo 256 |
| `PriorityCeiling.CounterIsRightIff` | src/pthread_mutex.c:260-278 | With fewer than 256 mutexes of a ceiling its counter is right if and only if time-outs and successful trylocks there cancel modulo 256 |
| `PriorityCeiling.CeilingRuleHolds` | src/pthread_mutex.c:246-461 | With untimed successful locks, base priority below 128 and fewer than 256 mutexes per ceiling, every counter counts and the thread runs at the highest of its base and its ceilings after every step |
| `PriorityCeiling.CeilingRuleIff` | src/pthread_mutex.c:246-461 | In every run of locks that succeed or time out, trylocks and unlocks, from every base priority: the thread runs where the standard says if and only if what it has been raised for, folded from its calls alone, and what it holds or awaits cover each other above the base |
| `PriorityCeiling.RunsAtRaised` | src/pthread_mutex.c:246-461 | In every run the running priority is the highest of the base and that fold |
| `PriorityCeiling.CeilingRuleIffWhileRoomy` | src/pthread_mutex.c:246-461 | A simpler reading of it: base below 128 and no lock call finding its counter at 255, the fold can be replaced by engaged mutexes plus time-outs less trylocks, modulo 256 |
| `PriorityCeiling.FullCounterDeceives` | src/pthread_mutex.c:260-448 | Inputs on which that reading is wrong both ways: after a trylock and its unlock, a lock call on the same ceiling, and its time-out |
| `PriorityCeiling.CeilingRuleIffAtUnlock` | src/pthread_mutex.c:446-461 | From a base below 128, whenever an unlock returns, in every run whatsoever, the simpler reading is exact |
| `PriorityCeiling.CeilingRuleIffTimeOutsHidden` | src/pthread_mutex.c:246-461 | Without trylocks and with mutexes and time-outs of a ceiling below 256: if and only if every time-out above the base is hidden by an engaged mutex of at least that ceiling |
| `PriorityCeiling.HighBaseRuleIff` | src/pthread_mutex.c:449-460 | Another simpler reading: base of 128 or more, untimed successful runs, if and only if the thread has not been left behind by an unlock that left nothing engaged; left behind, it runs at just that ceiling |
| `PriorityCeiling.HighBaseRuleIffAtUnlock` | src/pthread_mutex.c:449-460 | In those runs, when an unlock returns, if and only if it leaves something engaged |
| `PriorityCeiling.HighBaseIsNotRestored` | src/pthread_mutex.c:449-460 | Runs that fail: after one lock and unlock the thread stays at the ceiling, even once a mutex of a lower ceiling is engaged |
| `PriorityCeiling.ScanFindsHighest` | src/pthread_mutex.c:451-460 | The scan returns exactly that highest priority |
| `PriorityCeiling.ScanBelowBase` | src/pthread_mutex.c:451-460 | With a base it never meets, the scan gives the highest ceiling counted, or changes nothing if none is |
| `PriorityCeiling.ExpiredLockStaysRaised` | src/pthread_mutex.c:260-278 | Inputs of the failure: after a timed-out lock the thread holds nothing and runs at the ceiling, also after locking and unlocking a lower one |
| `PriorityCeiling.TryLockUnbalances` | src/pthread_mutex.c:378-448 | A trylock does not raise, and the unlock that matches it leaves the counter at 255 and the thread raised |
| `PriorityCeiling.ThreadPriority.Drop` | src/pthread_mutex.c:446-461 | Uncounts, and the loop leaves the highest priority due |
| `Keys.CountsAlwaysAgree` | src/pthread_key.c:132-188 | In every run a key is free and unused or has one reference plus one per non-NULL slot of any thread plus one per destructor in flight; a thread's count is its non-NULL slots |
| `Keys.FreshKeyReadsNull` | src/pthread_key.c:62-71 | The key create hands out is used by no slot and no destructor call, and reads NULL in every thread |
| `Keys.CreateFailsOnlyWhenFull` | src/pthread_key.c:62-74 | EAGAIN if and only if every key is in use |
| `Keys.DeleteFreesIffUnused` | src/pthread_key.c:97-107 | Delete frees a key if and only if no thread stores data in it and no destructor for it is in flight |
| `Keys.StoredValueSurvives` | src/pthread_key.c:168-188 | A stored value stays readable and its destructor unchanged whatever other threads do, deletes and creates included |
| `Keys.KeyLifetime` | src/pthread_key.c:54-112 | A key goes from free to allocated only by a create that finds it the first free one, with that destructor and nothing stored, and from allocated to free only by its own delete while nothing uses it |
| `Keys.DtorKeptWhileAllocated` | src/pthread_key.c:54-191 | While a key is allocated, with data or without, no operation of anybody changes its destructor |
| `Keys.CreatedKeyKeepsDtor` | src/pthread_key.c:54-191 | From its creation on, a key keeps the destructor given for as long as it is not freed, in every run |
| `Keys.StoredReachesItsDestructor` | src/pthread_key.c:119-191 | A value under a created key not freed since goes, when its thread ends, once to the destructor the key was created with, and to none if it was created with none, whatever other threads do during the destructors, if the thread's own change no slot |
| `Keys.SetThenGet` | src/pthread_key.c:160-218 | What setspecific stores under an allocated key getspecific reads; no other slot of any thread reads differently; an unallocated key takes nothing |
| `Keys.SweepAdvances` | src/pthread_key.c:127-151 | Every own step of the destructor loop takes it further towards a fixed bound or ends it, whatever destructors store |
| `Keys.SweepCallsBounded` | src/pthread_key.c:127-151 | At most 4 * 48 destructor calls, in every run |
| `Keys.SweepAmongOthers` | src/pthread_key.c:119-151 | In every run, the other threads creating, deleting, storing and sweeping at will between and during its destructor calls: if a thread's own destructors change no slot (setting an empty slot to NULL changes none), then when its sweep is over exactly the calls due to it were made, in order, and all its slots are NULL |
| `Keys.SweepEnds` | src/pthread_key.c:127-151 | In every run, whatever destructors store, the sweep is over after at most 2 * 4 * 48 + 1 of its own steps |
| `Keys.SweepVerdict` | src/pthread_key.c:127-151 | A whole sweep, in every run, whatever destructors store: it ends with every slot empty, or after it has gone over every slot four times |
| `Keys.QuietSweep` | src/pthread_key.c:127-151 | Undisturbed, it also drops exactly the references its row held |
| `Keys.CallsDueAreExact` | src/pthread_key.c:132-144 | Those due are one call per non-NULL value whose key has a destructor, in key order |
| `Keys.QuietExit` | src/pthread_key.c:130-148 | The early exit skips nothing |
| `Keys.KeySystem.Create` | src/pthread_key.c:54-77 | The search loop takes the first free key, or EAGAIN |
| `Keys.KeySystem.CleanupSpecific` | src/pthread_key.c:119-153 | The nested loops, with anything happening in any thread during each destructor call, are a run of the machine and make at most 4 * 48 calls; if the thread's own destructors change no slot, exactly the calls due are made, in order, and its slots end NULL |
| `Atomics.Refinement` | pthread/include/pthread_atomic.h:12-82 | In every run of any operations by any threads memory is what the completed operations, each done at once, make of it, each having found what those before it left; the same one level down for the compare-and-swaps |
| `Atomics.StepIsAtomic` | pthread/include/pthread_atomic.h:12-58 | Each access either leaves memory alone or is the whole operation, with the answer for the value it found |
| `Atomics.ReturnsWhatItLogged` | pthread/include/pthread_atomic.h:26-58 | An operation takes effect once, in the step in which it returns |
| `AtomicEffects.BitOperationsTouchOneBit` | pthread/include/pthread_atomic.h:60-82 | test_and_set_bit sets bit nr of the flat array and no other bit of any word; test_and_clear_bit flips it and no other; both say whether it was set |
| `AtomicEffects.ConcurrentAddsEachCountOnce` | pthread/include/pthread_atomic.h:37-58 | In every run of concurrent additions to a word, it holds its first value plus all completed additions, modulo 2^32 |
| `AtomicEffects.OneWinnerInLog` | pthread/include/pthread_atomic.h:60-70 | Of any setters of a clear bit exactly one finds it clear |
| `AtomicEffects.DetachSucceedsOnce` | src/pthread.c:812-822 | Of any number of concurrent pthread_detach calls on a joinable, undetached thread exactly one returns 0, in any memory and with any operations on other words |
| `Atomics.CallVerdict` | pthread/include/pthread_atomic.h:12-82 | A whole operation, in every run: at its last access it does to the word what the operation called does atomically, and returns the answer for the word it found there |
| `Atomics.OwnAccessComesNearer` | pthread/include/pthread_atomic.h:12-35 | Every own access brings an operation nearer to its return, as long as nobody stores to the word in between and strex does not fail |
| `AtomicMemory.Memory.Run` | pthread/include/pthread_atomic.h:12-82 | Any schedule leaves memory as the atomic operations would |
| `Spin.MutualExclusion` | src/pthread_spin.c:56-95 | In any run with unlock called only by the holder, at most one thread is in the critical section |
| `Spin.WordIsTruthful` | src/pthread_spin.c:56-95 | The word is 1 exactly while somebody holds the lock and 0 otherwise, so the test for a destroyed lock always passes and unlock by the holder always returns 0 |
| `Spin.BusyIsTrue` | src/pthread_spin.c:65-72 | trylock says EBUSY only at an access at which the lock is held |
| `SpinCalls.CallVerdict` | src/pthread_spin.c:56-95 | Whole calls, in every lawful run: lock returns only 0, and with the lock; trylock 0 with the lock, or EBUSY without; unlock 0, the lock given back |
| `SpinCalls.Advances` | src/pthread_spin.c:56-95 | Every own access brings a call nearer to its return, except that lock goes round again after it has found the lock held |
| `SpinCalls.StrayUnlock` | src/pthread_spin.c:89-95 | An unlock by a thread that does not hold the lock, alone: on a free lock it returns EPERM and, as it flips the bit, leaves it set with no holder; on a held one it returns 0 and leaves the bit clear under its holder |
| `SpinCalls.JammedForEver` | src/pthread_spin.c:56-95 | Once the bit is set with no holder, in every lawful run nobody ever holds the lock again, no lock call returns and every trylock that does says EBUSY |
| `SpinCalls.DestroyedRefuses` | src/pthread_spin.c:56-95 | On a lock destroyed with nobody inside, every call of every run returns EINVAL and the word stays as it is |
| `Spin.PthreadSpinlock.Run` | src/pthread_spin.c:56-95 | Any schedule in which only holders unlock is a run of the machine and ends with at most one holder |
| `OnceTheorems.AtMostOneInitCompletes` | src/pthread_once.c:22-45 | In every run at most one init completes, nobody is returned to before it has, init runs in at most one thread and never after one has completed |
| `OnceTheorems.NeverStuck` | src/pthread_once.c:31-43 | While the mutex is taken some thread can go on or is running init |
| `OnceTheorems.CancelledInitIsSafe` | src/pthread_once.c:5-11 | However the run goes on after an init is cancelled: the thread has always executed a prefix of its handlers, newest first; dead, all of them, with the mutex given up; and `done` is 0 for as long as it has the mutex |
| `OnceTheorems.CancelledThreadDies` | src/pthread.c:517-540 | However it goes on, the thread is dead after at most five accesses of its own for each handler and one more |
| `OnceTheorems.CancelledInitCanBeRetried` | src/pthread_once.c:5-11 | From any reachable state, an init cancelled and left to clean up frees the mutex with `done` still 0, and any caller, new, about to call lock or blocked in it, gets to run init |
| `OnceTheorems.CleansUp` | src/pthread.c:517-540 | A cancelled thread has such a run of its own, which frees the mutex if it had it and leaves the others as they were |
| `OnceTheorems.CallerRunsInit` | src/pthread_once.c:29-39 | In any reachable state with init not done and the mutex free, a caller, new or already waiting for the mutex, runs init |
| `OnceCalls.CallVerdict` | src/pthread_once.c:22-45 | A whole call, in every run: it returns only with init done once, the caller's clean-up handlers as they were and the mutex given up, unless it is cancelled in init, with `done` still 0 and the handler that unlocks still to run |
| `OnceCalls.Advances` | src/pthread_once.c:22-45 | Every own access brings a call nearer to its return, except that it waits for the mutex while some thread has it; a caller that finds `done` set returns at once, the mutex untouched |
| `OnceCalls.InitCanReturn` | src/pthread_once.c:31-43 | While init runs none has completed; with its own handlers popped it can return, and the call goes on to the pop |
| `OnceCalls.HandlersAccountedFor` | src/pthread_cleanup.c:19-40 | In every run, cancellations included, each handler is pushed as often as it has been executed, popped unexecuted or is still on the stack |
| `OnceObject.PthreadOnce.Run` | src/pthread_once.c:22-45 | Any schedule of callers, cancellations included, completes at most one init and returns to nobody before |
| `Cleanup.RunAllIsNewestFirst` | src/pthread.c:53-59 | Emptying the stack executes every handler once, newest first |
| `Cleanup.LastInFirstOut` | src/pthread_cleanup.c:19-40 | Handlers pushed and then run are executed in reverse order, before any pushed earlier |
| `Cleanup.ReverseAt` | src/pthread_cleanup.c:19-40 | The k-th executed is the k-th last pushed |
| `Cleanup.Handlers.RunHandlers` | src/pthread.c:53-59 | The loop empties the linked list and executes it from the front |
| `Gate.BodyRunsOnce` | pthread/include/pthread_impl.h:353-373 | In every run at most one body is executed, nobody passes before it has finished, and control never returns to 0 |
| `Gate.PassesIffExchangeMissesOne` | pthread/include/pthread_impl.h:360-368 | A caller at its exchange can still pass, in some run, if and only if the exchange does not find 1 |
| `Gate.SpinIsForEver` | pthread/include/pthread_impl.h:364-368 | A caller whose exchange found 1 waits for ever in every run |
| `Gate.HangsIffShared` | pthread/include/pthread_impl.h:360-368 | Some run makes a caller wait for ever if and only if at least two threads use the gate |
| `Gate.HangsLateIffShared` | pthread/include/pthread_impl.h:360-368 | And exactly then even a thread that has passed the gate, after the body has finished |
| `Gate.LateCallerReached` | pthread/include/pthread_impl.h:353-373 | From the initial state to a late caller about to exchange |
| `Gate.LateCallersCollide` | pthread/include/pthread_impl.h:360-368 | From there, four events leave the other caller waiting for ever |
| `Gate.SettledForEver` | pthread/include/pthread_impl.h:353-373 | Once the body has finished and nobody is at the exchange, every caller of every later run passes at its first access |
| `Gate.NewCallerCanPass` | pthread/include/pthread_impl.h:353-373 | From every reachable state, whatever collisions there have been, a caller outside can still pass, and nobody else has to move but the one caller in charge of the 1 in control |
| `Gate.ExecuteOnce.Run` | pthread/include/pthread_impl.h:353-373 | Any schedule of callers executes at most one body, passed by nobody before it finished |
| `StaticInit.FirstUsersCreateOne` | src/pthread_mutex.c:85-129 | In every run of first users under the nested recursive global lock at most one semaphore is created, the object is as declared until it is stored, and it is never invalidated |
| `StaticInit.UsableOnReturn` | src/pthread_mutex.c:111-129 | A first use that returns 0 returns with the semaphore in place, and an error comes only from a failed creation |
| `StaticInit.Retriable` | src/pthread_rwlock.c:92-120 | However many creations have failed, any user, new or blocked in the global lock all the while, tries again once the lock is free, and success makes the semaphore the object's |
| `StaticInit.IdStays` | src/pthread_rwlock.c:92-95 | A stored id is never replaced |
| `StaticInit.Advances` | src/pthread_mutex.c:111-129 | Every own access brings a first use nearer to its end, except that it waits for the global lock while another thread has it; a user that finds an id in place leaves at once, the lock untouched |
| `StaticInit.MarkFollowsId` | src/pthread_mutex.c:84-96 | In every run the signature of a static object is there while its id is static, and afterwards only until the thread that stored the id, next, overwrites it |
| `StaticInit.StaticObject.Run` | src/pthread_mutex.c:111-129 | Any schedule of first users, failed creations included, creates at most one semaphore |
| `Time.DeltaTimeIsExact` | src/pthread.c:1096-1110 | If the true difference A - N is in [-2^31, 2^31), the result is max(0, A - N) although both times wrap modulo 2^32 |
| `Time.DeltaTimeExactIff` | src/pthread.c:1096-1110 | The result is max(0, A - N) if and only if the difference is in that range, or is below it and not positive as a signed word |
| `Time.UsecIsCongruent` | pthread/include/pthread_impl.h:435-438 | The wrapped microseconds are the true ones modulo 2^32 |
| `Time.MicrosIsNearest` | pthread/include/pthread_impl.h:435-438 | The conversion rounds to the nearest microsecond |
| `ThreadName.AddressRoundTrip` | src/pthread.c:293-300 | An address written into a name is read back unchanged, whatever follows it |
| `ThreadName.Name` | src/pthread.c:293-300 | Writes the eight digits and nothing else of the name |
| `ThreadName.Get` | src/pthread.c:1011-1043 | The reading loop yields the address if and only if the first eight characters are digits |

## Left out

- PRIO_INHERIT, and mixing it with PRIO_PROTECT: the priority restored is a stale snapshot, so the documented rule does not hold.
- MutexCalls.CallVerdict: the old ceiling that setprioceiling hands out is not part of the state.
- AtomicEffects.DetachSucceedsOnce: pthread_detach's test for a joinable thread is not part of this model.
- Changing a mutex's ceiling or a thread's base priority while a PRIO_PROTECT mutex is held, and the main thread, whose stored priority is 0.
- PriorityCeiling.CeilingRuleHolds: does not cover timed-out locks and trylocks, because the rule can be false after them; CeilingRuleIff says exactly when.
- PriorityCeiling.CeilingRuleIffWhileRoomy: is for base priorities below 128 and runs in which no lock call finds its counter at 255; CeilingRuleIff covers the others.
- PriorityCeiling.HighBaseRuleIff: is for untimed successful locks; CeilingRuleIff covers time-outs and trylocks too.
- PriorityCeiling.HighBaseRuleIffAtUnlock: is for untimed successful locks; CeilingRuleIff covers time-outs and trylocks too.
- PriorityCeiling.ThreadPriority.Raise: the kernel's record of the running priority is a field here, not a call.
- pthread_cancel of a waiting thread, pthread_join, pthread_exit and thread creation: they depend on kernel thread deletion, which is not part of this model.
- Semaphores have no queue order: any waiter whose units are there may proceed, which allows every order the kernel's queues can produce; fairness is not modelled.
- The callback of a wait is taken to run exactly once, after it is notified and before the wait can succeed or time out; the thread's own control semaphore around inWAIT is left out.
- `NbWait += 1` and `NbWait -= 1` under control are single steps, and so is the barrier's `count += 1`; both are only written by the holder of control.
- Destroy functions, and uses of an object while it is destroyed or initialised.
- StaticInit.FirstUsersCreateOne: says nothing of fields other than the id and the signature, because they are published after the id.
- StaticInit.StaticObject.Initialise: covers the order of id and signature; type, protocol, ceiling and count are not distinguished.
- Once.dfy covers cancellation that init acts upon itself through pthread_testcancel; init calling pthread_once on the same control, which waits for ever, and handlers that push further handlers are not modelled.
- Keys.CountsAlwaysAgree: takes each operation as one step except at destructor calls; the per-key mutexes, of which delete destroys even a kept key's, and unsynchronised access to the counts are not modelled.
- Per-thread separation of the barrier's rounds, which fails (OvertakingIffUsable).
- Gate.BodyRunsOnce: takes the exchange as one step, which is what Atomics proves of it; that a waiting caller ends is false and not claimed.
- Spin.MutualExclusion: the caller that unlocks must hold the lock, as the documentation demands.
- Time.DeltaTimeIsExact: is about two given times and about values of tv_nsec whose rounding does not overflow; reading the clock, done in floating point, is not part of this model.
- ThreadName.Get: takes `char` as signed, as the code's own test needs it.
- The width of recursivecount and of NbWait: recursivecount is unbounded here, NbWait is shown to stay within the number of threads.
- Checks of pointers and of destroyed objects (VALID, CHECK_PT_PTR), except the spin lock's test of its word.
- The switch g_pThreadLocking, taken as 1.
- Event flags, mailboxes, message pipes, sched_yield, attribute getters and setters, and printing: thin wrappers or stubs.
