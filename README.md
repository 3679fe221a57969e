# Plan-node instrumentation: shared slot pool and timing state machine

This project models the core of `src/backend/executor/instrument.c`. That
file does two jobs for the executor of a Greenplum/PostgreSQL-derived
database:

1. **A fixed-capacity pool of instrumentation slots in shared memory.**
   `InstrShmemSize` gives the bytes to reserve. `InstrShmemInit` zeroes the
   region and links all slots into a free list. `InstrAlloc` pops the head
   of that list, or falls back to a zeroed private record. `InstrFree`
   zeroes a shared slot and pushes it back at the head.
2. **A per-plan-node state machine** over one instrumentation record.
   `InstrStartNode` marks entry to a node. `InstrStopNode` marks exit and
   counts tuples. `InstrEndLoop` ends a run cycle and folds the cycle's
   time and tuples into lifetime totals.

Files:

- `freelist.dfy` (module `FreeList`): the free list as pure data. A slot's
  `next` link is a slot index, with `NULL` (-1) for the null pointer.
  `Chain(links, h, l)` says that following `next` from `h` visits the slots
  of `l` in order, without repeats, and ends in NULL. Lemmas cover pop,
  push, the freshly linked arena, determinism and the capacity bound.
- `record.dfy` (module `InstrRecord`): the record as a class `Instrumentation`
  whose methods update its fields as the C code does. Each method is
  specified by a transition function (`Start`, `Stop`, `EndLoop`) on the
  value `RecordState`. `Run` replays a sequence of calls, and lemmas about
  `Run` state what holds over many calls and cycles.
- `pool.dfy` (module `InstrPool`): the header as a class
  `InstrumentationHeader` with `head`, `free` and `inUse` fields and an
  `array<Slot>` arena. `Valid()` is the pool invariant. `InstrAlloc` and
  `InstrFree` take the nullable header, which stands for `InstrumentGlobal`.

Modelling choices:

- The `gp_enable_query_metrics` setting, `Gp_segment` and `MyProcPid` are
  passed to `InstrAlloc` as parameters.
- Time is an integer tick count passed in as `now`.
- A start time of 0 means "no Start pending", as `INSTR_TIME_IS_ZERO` does.
  A Start whose clock reads 0 therefore leaves the record idle. The cycle
  lemmas exclude that case with the predicate `Timed`.
- The `DEBUG2` diagnostics become boolean results: `twice`, `withoutStart`
  and `stillRunning`.
- Each slot's embedded record is a separate `Instrumentation` object,
  `records[i]`. Its constant `slot` field holds its arena index, or
  `Private` for a private record. That index stands in for the pointer cast
  from record to slot in `InstrFree`.

Three details of the code that the model keeps:

- `InstrAlloc` does not zero the slot it hands out. The record is zero only
  because every slot on the free list is zero, and the model proves that
  from the pool invariant.
- `InstrFree` does nothing for a null record or an absent pool, and also
  nothing for a private record (the `in_shmem` test at line 131).
- Freeing a record a second time, before its slot is handed out again, is
  a no-op. The first free zeroes the slot, so the record then reads
  `in_shmem == false`, and the second call takes the private branch
  (`FreeTwiceIsFreeOnce`).

## Model

| member | source | states |
|---|---|---|
| `InstrPool.InstrumentationHeader.Init` | src/backend/executor/instrument.c:34-68 | the pool invariant holds; `head` is slot 0; `free` is the capacity and `inUse` is 0; the free list is exactly 0, 1, ..., capacity-1, ending in NULL; every slot and its record are zero |
| `InstrPool.InstrAlloc` | src/backend/executor/instrument.c:71-118 | the result is shared exactly when metrics are on, the pool exists and `free > 0`. A shared result is the old head slot's record: `head` becomes that slot's old `next`, `free` drops by 1 and `inUse` grows by 1. That slot gets `next = NULL` and the given segment and pid, and no other slot changes. Otherwise the result is a fresh private record and the pool is untouched. Either way the record's fields start at zero, and the pool invariant is kept |
| `InstrPool.InstrFree` | src/backend/executor/instrument.c:120-144 | nothing in the pool changes for a null record, an absent pool or a private record. Otherwise the slot and its record are zeroed and the slot becomes the new `head`, linked to the old head. `free` grows by 1 and `inUse` drops by 1, no other slot changes, and the invariant is kept. The precondition only excludes a record with the residency flag set that is not a handed-out record of this pool; `SharedRecordsInUse` shows every flagged record of the pool meets it |
| `InstrPool.FreeListIsLifo` | src/backend/executor/instrument.c:86-140 | the list is last in, first out: after freeing a and then b, two allocations return b and then a, and the counts are back where they were |
| `InstrPool.ExhaustedThenRecovered` | src/backend/executor/instrument.c:86-112 | with `free == 0`, an allocation falls back to a fresh private record. After one slot is freed, the next allocation reuses exactly that slot's record |
| `InstrPool.InstrumentationHeader.CountsBounded` | src/backend/executor/instrument.c:89-92 | under the invariant, `free` and `inUse` both stay between 0 and the capacity |
| `InstrPool.InstrumentationHeader.EmptyIffExhausted` | src/backend/executor/instrument.c:86-87 | a NULL `head` means exactly that no slot is free, so the null test at line 87 is the exhaustion test |
| `InstrPool.InstrShmemSize` | src/backend/executor/instrument.c:27-31 | the size is at least the header and ends exactly where a slot numbered `capacity` would begin, so it is the header followed by `capacity` slots; `SlotInRegion` is its partner and shows every slot fits |
| `InstrPool.InstrumentationHeader.SharedRecordsInUse` | src/backend/executor/instrument.c:131-133 | under the invariant, a record of this pool whose residency flag is set is handed out: free slots are zero, so their flag is clear |
| `InstrPool.FreeTwiceIsFreeOnce` | src/backend/executor/instrument.c:131-140 | freeing the same record twice has the effect of one free: the record is zero, its slot is the new `head` with link to the old head and zero ids, `free` grows by 1 and `inUse` drops by 1, the free list gains that slot in front, and no other slot or record changes. The first call zeroes the slot and so clears `in_shmem`; the second takes the private branch |
| `InstrPool.InstrDriveNode` | src/backend/executor/instrument.c:147-216 | the owner's start, stop and end-of-loop calls on a handed-out record leave the record in the state `Run` gives for those three calls, keep its residency flag, keep it handed out and keep the pool invariant |
| `InstrPool.InstrLifecycle` | src/backend/executor/instrument.c:71-144 | allocating a record, driving it through one cycle and freeing it keeps the pool invariant and restores `free` and `inUse`; the record was shared exactly when metrics are on and a slot was free |
| `InstrPool.SlotInRegion` | src/backend/executor/instrument.c:27-31 | the region of `InstrShmemSize` bytes (header plus capacity × slot size) holds every slot 0..capacity-1 after the header |
| `InstrPool.SlotsDisjoint` | src/backend/executor/instrument.c:52-53 | in the slot array that starts after the header, distinct slots do not overlap; it follows from `SlotInRegion` for a region of j slots |
| `FreeList.ChainOfLinkedArena` | src/backend/executor/instrument.c:61-64 | once slot i links to i+1 and the last slot to NULL, following `next` from slot i visits i..n-1 in order and ends in NULL |
| `FreeList.ChainPop` | src/backend/executor/instrument.c:86-98 | taking the head off a free list leaves a free list starting at the head's old `next`, whatever is then written into the popped slot's link |
| `FreeList.ChainPush` | src/backend/executor/instrument.c:137-138 | linking a slot that is not on the list to the old head, and making it the head, gives the old list with that slot in front |
| `FreeList.ChainUnaffected` | src/backend/executor/instrument.c:98-102 | rewriting the link of a slot that is not on the free list leaves the list unchanged |
| `FreeList.ChainDeterministic` | src/backend/executor/instrument.c:56-64 | the list reached from `head` is determined by the links alone, so the ghost free list is the list in memory |
| `FreeList.ChainInArena` | src/backend/executor/instrument.c:86-90 | every slot reached from `head` is a valid arena index |
| `FreeList.ChainFitsArena` | src/backend/executor/instrument.c:139-140 | a free list never holds more slots than the arena, so `in_use` cannot go negative |
| `InstrRecord.Instrumentation.constructor` | src/backend/executor/instrument.c:106-112 | a private record starts with every field zero and is not shared |
| `InstrRecord.Instrumentation.Clear` | src/backend/executor/instrument.c:132-133 | after the slot is zeroed, every field of the record is zero, the residency flag included |
| `InstrRecord.Instrumentation.InstrStartNode` | src/backend/executor/instrument.c:147-154 | `starttime` becomes `now` only when it was 0. Otherwise nothing changes and the "called twice" diagnostic is reported. The residency flag is untouched |
| `InstrRecord.Instrumentation.InstrStopNode` | src/backend/executor/instrument.c:157-184 | `n` is always added to `tuplecount`. Without a pending start, nothing else changes and the "without start" diagnostic is reported. Otherwise `counter` grows by `now - starttime` and `starttime` becomes 0. On the first stop of a cycle, `running` becomes true, `firsttuple` becomes the new counter and `firststart` the old start time |
| `InstrRecord.Instrumentation.InstrEndLoop` | src/backend/executor/instrument.c:187-216 | a no-op when not running. Otherwise: `startup` is set from `firsttuple` only if `nloops` was 0; `counter` is added to `total` and `tuplecount` to `ntuples`; `nloops` grows by 1. Then `running`, `starttime`, `counter`, `firsttuple` and `tuplecount` are reset. A pending start is reported as the "running node" diagnostic |
| `InstrRecord.TuplesNeverLost` | src/backend/executor/instrument.c:163-215 | for any sequence of calls in any order, `ntuples + tuplecount` grows by exactly the tuples all Stop calls reported. That includes a Stop without a Start, and tuples left in a cycle that EndLoop skipped |
| `InstrRecord.StartupLatchedOnce` | src/backend/executor/instrument.c:202-208 | for any sequence of calls, `nloops` never decreases, and once a cycle has completed, `startup` is never written again |
| `InstrRecord.CycleEffect` | src/backend/executor/instrument.c:163-183 | a cycle of start/stop pairs with nonzero start times adds each pair's elapsed time to `counter` and its tuples to `tuplecount`. If the cycle was not yet running, the first pair latches `firsttuple` and `firststart` |
| `InstrRecord.RescanTotals` | src/backend/executor/instrument.c:199-215 | after k non-empty cycles, each closed by EndLoop, `total` and `ntuples` have grown by the sums over all cycles and `nloops` by k. `startup` is the first cycle's time to first output when no cycle had completed before. The record is back at a cycle boundary |

## Left out

- `src/backend/postmaster/segment_info_sender.c` and
  `src/include/postmaster/segment_info_sender.h` are not part of this model.
  They hold the collector's background loop (latch waits, postmaster-death
  exit, the collect hook) and a start rule that only returns the enable
  setting. That is process plumbing with no logic to check.
- Spinlocks and concurrent readers: each locked region is part of one
  sequential method. Contention and torn reads are not modelled.
- `ShmemAlloc`, `palloc0` and the fatal error on allocation failure:
  allocation always succeeds in the model.
- `MemSet` and the pointer casts between records and slots are replaced by
  an index-based arena and explicit zeroing (`EmptySlot`,
  `Instrumentation.Clear`). The slot's layout and `GetInstrumentNext` come
  from `src/include/executor/instrument.h`, which is not part of this model,
  so `next` is a separate slot field.
- The value of `MaxInstrumentationOnShmem` is also defined there. The
  capacity is a parameter of `Init`, required to be at least 1: line 64
  writes to `slot[0]` even when the capacity is 0. Header and slot sizes
  are parameters of `InstrShmemSize` for the same reason.
- The real clock and double-precision arithmetic: time is integer ticks
  passed in, and tuple counts and totals are integers. Rounding and
  overflow are not modelled.
- `elog(DEBUG2, ...)` logging is modelled only as the boolean diagnostic
  results.
- `numPartScanned` and the batch size `n` of `InstrAlloc`: `n` is always 1
  (line 75), and the field is not part of the model.
- InstrFree: a record whose residency flag is set but which is not a
  handed-out record of this pool is excluded by the precondition. In the
  source such a pointer would make line 133 zero memory outside the pool.
  No record returned by `InstrAlloc` is of that kind (`SharedRecordsInUse`).
