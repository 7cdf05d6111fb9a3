# Transaction manager with deadlock detection — a Dafny model

This project models `MyTransactionManager`, an in-memory transaction manager for a fixed
collection of resources. Each thread runs at most one transaction. Inside it, the thread
operates on resources, taking each resource's lock the first time it uses it. A deadlock
detector runs whenever a thread asks for a resource it does not hold yet. It walks the
wait-for chain: the owner of the requested resource, then the owner of what that thread
waits for, and so on. If the chain comes back to the requester, the newest transaction on
it is aborted. A later start time is newer; equal start times are broken by the larger
thread id. Commit releases everything. Rollback undoes the transaction's operations,
newest first, and then releases everything.

The manager's state is one immutable record of six maps (`TxState.State`):
- start times;
- statuses (ONGOING / ABORTED);
- undo logs;
- held-resource sets;
- resource owners;
- wait edges (the resource each waiting thread requested).

Every API call is a pure, atomic transition. It returns a `Step`:
- the new state;
- the reply (`Done`, a raised `Error`, `Waiting`, or `Hung`);
- the list of `execute` / `undo` calls made on resources.

`Waiting` means the caller blocked on a busy resource lock. The wake-up is a separate
transition, `Manager.Resume`. `Hung` means the call never returns: the detector's loop
goes round a cycle that does not contain the requester. `TxState.Valid` is the invariant
every transition keeps: live records have a start time, a status and a held set, and held
sets agree exactly with resource ownership.

Modules, one per file:
- `TxState` (state.dfy) — the data model and the invariant.
- `Detector` (detector.dfy) — the wait-for walk, victim choice and the detector's decision.
- `WalkTermination` (termination.dfy) — the wait-for chain, and proof that the walk's fuel
  is exactly enough: the walk runs out of fuel iff the source loop never ends.
- `Manager` (manager.dfy) — `startTransaction`, `operateOnResourceInCurrentTransaction`,
  `commitCurrentTransaction`, `rollbackCurrentTransaction`, `isTransactionActive`,
  `isTransactionAborted`, `findResourceById`, `acquireResource` and `releaseResources`.
- `UndoReplay` (undo.dfy) — what the undo log achieves. With resource values and
  `execute`/`undo` as functions, rollback restores the values whenever `undo` inverts
  `execute`.
- `WaitForGraph` (waitfor.dfy) — every transition keeps the wait-for graph acyclic, so no
  call in any reachable state hangs.
- `AsWritten` (as_written.dfy) — the three places where the code differs from its evident
  intent, modelled as written, each with a concrete input.

## Model

| member | source | states |
|---|---|---|
| Detector.Next | solution/MyTransactionManager.java:130-136 | the thread a waiter waits for exists iff it has a wait edge to an owned resource, and is that resource's owner |
| Detector.WalkFrom | solution/MyTransactionManager.java:112-137 | the walk visits only threads other than the requester, at most its fuel many; the victim is the requester or a visited thread, and is newer than every other visited thread and than the initial candidate |
| Detector.NewerStrictTotal | solution/MyTransactionManager.java:117-128 | the victim order (later start, then larger thread id) is irreflexive, total and transitive, so the victim is unique |
| Detector.Publish | solution/MyTransactionManager.java:110 | publishing the request sets exactly the requester's wait edge to the resource; nothing else changes and the invariant is kept |
| Detector.MarkAborted | solution/MyTransactionManager.java:142 | `replace` marks a thread aborted only if it has a status; no status appears or disappears and no other status changes |
| Detector.AbortWaiter | solution/MyTransactionManager.java:141-142 | aborting a waiter withdraws only its wait edge and changes only its status; ownership, held sets, start times and logs are untouched; the invariant is kept |
| Detector.Detect | solution/MyTransactionManager.java:110-151 | self-abort iff the walk closed a cycle whose newest member is the requester; otherwise the requester keeps its new edge and its status, and on a cycle exactly the victim is aborted and stops waiting; with no cycle only the new edge appears; divergence iff the walk runs out of fuel; ownership, logs and start times never change |
| WalkTermination.WalkFollowsChain | solution/MyTransactionManager.java:116-136 | the walk visits exactly the successive cursors of the source loop, and ends where the loop's condition fails |
| WalkTermination.OutOfFuelNeverStops | solution/MyTransactionManager.java:116-137 | once a walk with one step per wait edge runs out of fuel, the loop's cursor is never empty and never the requester again: the loop never exits |
| WalkTermination.DetectTerminatesIff | solution/MyTransactionManager.java:110-137 | the detector diverges iff the source loop never exits; otherwise the loop stops exactly after the visited threads, at the requester (a cycle) or at an empty cursor |
| Manager.IsAborted | solution/MyTransactionManager.java:320-323 | a transaction is aborted iff the thread's status is ABORTED; an absent status is not aborted |
| Manager.IsActive | solution/MyTransactionManager.java:313-318 | a transaction is active iff the thread has a status, so an aborted transaction is still active |
| Manager.FindResourceById | solution/MyTransactionManager.java:330-338 | absent iff no resource has the id; otherwise the first position holding it |
| Manager.Start | solution/MyTransactionManager.java:203-216 | an active caller gets AnotherTransactionActive and nothing changes; otherwise a fresh ONGOING record with the given start time, an empty log and no resources; no other thread, owner or wait edge changes; the invariant is kept |
| Manager.RunOperation | solution/MyTransactionManager.java:247-253 | the operation is executed once; on success it is pushed onto the caller's log, on failure the error passes through and nothing changes |
| Manager.Grant | solution/MyTransactionManager.java:154-157 | after the lock is granted the caller owns the resource, holds it in addition to what it held, and has no wait edge; no other wait edge, held set or owner and no start time, status or log changes; the invariant is kept when the resource was free |
| Manager.Acquire | solution/MyTransactionManager.java:153-161 | an aborted (interrupted) caller raises Interrupted with nothing changed; a busy lock leaves the caller waiting; a free lock is granted (of the wait edges, held sets and owners only the caller's wait edge, its held set and that resource's owner change; start times and statuses stay) and then the operation is executed once, on a resource the caller owns; the reply is Done iff it succeeds; only the caller's log changes, and only on success |
| Manager.AcquireNew | solution/MyTransactionManager.java:102-162 | for a resource not yet held the reply follows the detector: a self-abort raises ActiveTransactionAborted and executes nothing, divergence hangs, a busy lock waits, a free lock is taken (only the caller's wait edge, its held set and that owner change from the detector's state) and the operation executed once; an operation is executed only on a resource the caller then owns and holds; start times and other threads' logs never change; the caller's log grows only on success; a failed operation leaves the transaction ONGOING with the resource held |
| Manager.Operate | solution/MyTransactionManager.java:218-254 | ABORTED, then no transaction, then unknown resource are checked in that order, each changing nothing; for a held resource nothing changes but the caller's log, which grows by the entry iff the operation succeeds; for a new resource the reply follows the detector's decision (a self-aborted caller raises ActiveTransactionAborted and executes nothing); every executed operation is on a resource the caller owns and holds; start times and other threads' logs never change; a failed operation ran once and leaves the transaction ONGOING with the resource held; the invariant is kept |
| Manager.Resume | solution/MyTransactionManager.java:153-161 | the wake-up of a blocked caller: an aborted caller raises Interrupted with nothing changed; it keeps waiting while the lock is owned; once the lock is free it is granted (of the wait edges, held sets and owners only the caller's wait edge, its held set and that owner change) and the operation runs once, with reply Done iff it succeeds; only the caller's log changes, and only on success |
| Manager.Release | solution/MyTransactionManager.java:170-180 | every resource in the caller's held set loses its owner, the set is dropped, and no other ownership or held set changes; with no held set nothing changes |
| Manager.EndPreservesValid | solution/MyTransactionManager.java:276-279 | dropping a transaction's record and releasing its resources keeps the invariant |
| Manager.Commit | solution/MyTransactionManager.java:256-282 | ABORTED, then no transaction, are refused with nothing changed; otherwise the record and log are gone, every held resource is free, no undo is called; no other thread's start time, status, log or held set changes |
| Manager.UndoCalls | solution/MyTransactionManager.java:299-307 | the undo calls are the log's entries popped from the top, the newest first |
| Manager.Rollback | solution/MyTransactionManager.java:284-311 | the transaction ends, each logged operation is undone newest first, every held resource is freed; no other thread's start time, status, log or held set changes; an inactive caller changes nothing |
| UndoReplay.UndoCancelsExecute | solution/MyTransactionManager.java:299-307 | when undo inverts execute, undoing a log newest first cancels executing it oldest first |
| UndoReplay.OperateExtendsLog | solution/MyTransactionManager.java:247-249 | a successful operate extends the log's execute calls by exactly the call it made |
| UndoReplay.RollbackRestores | solution/MyTransactionManager.java:296-308 | rollback's calls return every resource value to what it was before the transaction's logged operations |
| WaitForGraph.InitAcyclic | solution/MyTransactionManager.java:189-195 | a fresh manager has no wait-for cycle |
| WaitForGraph.PublishKeepsAcyclic | solution/MyTransactionManager.java:110-137 | a new wait edge whose walk ends without reaching the requester closes no cycle |
| WaitForGraph.VictimAbortKeepsAcyclic | solution/MyTransactionManager.java:146-149 | aborting a victim other than the requester and withdrawing its edge leaves no cycle |
| WaitForGraph.DetectKeepsAcyclic | solution/MyTransactionManager.java:110-151 | in an acyclic graph the detector never diverges, and its decision leaves the graph acyclic |
| WaitForGraph.AcquireNewKeepsAcyclic | solution/MyTransactionManager.java:102-162 | the acquisition path for a new resource keeps the graph acyclic and never hangs |
| WaitForGraph.GrantKeepsAcyclic | solution/MyTransactionManager.java:154-157 | granting a free lock closes no cycle |
| WaitForGraph.NoDivergence | solution/MyTransactionManager.java:116-137 | without a wait-for cycle the detector's walk always ends |
| WaitForGraph.OperateKeepsAcyclic | solution/MyTransactionManager.java:218-254 | operate keeps the wait-for graph acyclic and never hangs |
| WaitForGraph.ResumeKeepsAcyclic | solution/MyTransactionManager.java:153-161 | a wake-up keeps the wait-for graph acyclic |
| WaitForGraph.LifecycleKeepsAcyclic | solution/MyTransactionManager.java:203-311 | start, commit and rollback add no wait-for edge, so they keep the graph acyclic |
| WaitForGraph.Perform | solution/MyTransactionManager.java:203-311 | any one API call or wake-up keeps the invariant |
| WaitForGraph.PerformKeepsAcyclic | solution/MyTransactionManager.java:203-311 | any one API call or wake-up keeps the graph acyclic and never hangs |
| WaitForGraph.Run | solution/MyTransactionManager.java:182-201 | every state reached from a fresh manager by any sequence of calls satisfies the invariant |
| WaitForGraph.RunAcyclic | solution/MyTransactionManager.java:182-201 | every state reached from a fresh manager by any sequence of calls has an acyclic wait-for graph |
| WaitForGraph.NeverHangs | solution/MyTransactionManager.java:116-137 | no call made in a reachable state hangs in the detector loop |
| AsWritten.DetectAsWritten | solution/MyTransactionManager.java:110-151 | as written, the detector self-aborts iff the walk closes a cycle whose newest member is the requester, diverges iff the walk runs out of fuel, never changes ownership, held sets, start times or logs, and otherwise leaves every old wait edge in place next to the requester's new one |
| AsWritten.DetectsDifferOnlyInVictimEdge | solution/MyTransactionManager.java:146-149 | the detector as written takes the same decision and sets the same statuses as the corrected one; the only difference is that a foreign victim keeps its wait edge, which the corrected detector withdraws |
| AsWritten.AcquireNewAsWritten | solution/MyTransactionManager.java:139-145 | as written, a self-aborted requester still executes its operation, on a resource whose ownership does not change, and is left ABORTED |
| AsWritten.OperateAsWritten | solution/MyTransactionManager.java:227-236 | as written, operate checks its preconditions in the same order as the corrected one, each changing nothing |
| AsWritten.SelfAbortedExecutesOnForeignResource | solution/MyTransactionManager.java:139-145 | a concrete two-thread deadlock in which the self-aborted requester executes on, and logs, a resource the other thread owns |
| AsWritten.SelfAbortedRaisesInstead | solution/MyTransactionManager.java:139-145 | in the same state, the corrected operate raises ActiveTransactionAborted and executes nothing |
| AsWritten.RollbackAsWritten | solution/MyTransactionManager.java:286-288 | as written, rollback does nothing whenever some transaction's start time equals the caller's thread id, and otherwise behaves as the corrected rollback; an active caller's transaction survives its rollback exactly when its id is some start time |
| AsWritten.RollbackSkippedWhenStartEqualsTid | solution/MyTransactionManager.java:286-288 | thread 5 started at time 5 cannot roll back, and so cannot start again; the corrected rollback ends the transaction |
| AsWritten.DetectKeepsVictimEdge | solution/MyTransactionManager.java:146-149 | a concrete cycle in which, as written, the aborted victim still waits |
| AsWritten.VictimInterrupted | solution/MyTransactionManager.java:159-161 | the victim's interrupted acquire leaves its wait edge in place |
| AsWritten.ThirdThreadHangs | solution/MyTransactionManager.java:116-137 | as written, a third thread requesting a resource on that stale cycle never leaves the detector loop |

## Left out

- Semaphores, FIFO queueing and fairness are not modelled. A blocked acquire is the reply
  `Waiting`, and the grant is the separate transition `Manager.Resume`. Which waiter is
  woken first is not modelled.
- Interrupting a thread is modelled only through the ABORTED flag that the detector sets
  first. A wake-up of an ABORTED thread raises `Interrupted`. The race between the gate's
  release (line 151) and the blocking acquire (line 154) is covered by that wake-up.
- The gate acquisitions that swallow an exception and return (lines 104-108, 270-274,
  290-294) are left out. Each call is modelled as one atomic step that holds the gate.
- `Placeholder.java` is not part of this model.
- Resources and operations are opaque ids. Whether `execute` succeeds is the parameter
  `ok`. `undo` is assumed to succeed. Their effect on resource values appears only in
  `UndoReplay`, as two functions on integers.
- The time provider is the parameter `now` of `Manager.Start`.
- Resource lookup at line 332 compares ids by reference; the model compares them by value.
- Start times and thread ids are unbounded integers. They are only compared, so Java
  `long` overflow plays no part.
- Manager.Operate: requires `Valid`. The null dereferences the source would hit in
  states that break it are not modelled. `WaitForGraph.Run` shows that every reachable
  state is valid.
- Manager.Resume: requires that the caller has a live transaction. A blocked caller
  always has one, because only the caller itself can end its transaction.
- Detector.WalkFrom: walks with fuel equal to the number of wait edges.
  `WalkTermination.DetectTerminatesIff` proves that this fuel runs out exactly when the
  source loop never ends, so nothing is lost.
- Concurrency is not modelled: operations of different threads are interleaved only at
  call (and wake-up) boundaries.

### Behaviour of the code worth knowing

- An interrupted victim keeps its wait edge: neither the detector (lines 147-149) nor the
  failing acquire (lines 159-161) removes it. See finding 3.
- When T2 (start 2) closes a cycle with T1 (start 1), T2 is the requester and the newest
  transaction on the cycle, so it takes the self-abort path (lines 139-145) rather than
  interrupting T1's pending acquire. The model follows the code, corrected as in
  finding 1: T2 gets `ActiveTransactionAborted`.
- Rollback pops the log but leaves the empty stack in place (lines 299-307). The model
  keeps an empty log for the finished thread.
- `startTransaction` (lines 203-216) does not clear a wait edge left behind by an earlier
  transaction; `Manager.Start` leaves wait edges alone.

## Findings

| source | as written | input that shows it | evidently intended | confidence | as-written member | corrected member |
|---|---|---|---|---|---|---|
| solution/MyTransactionManager.java:139-145 | after electing itself victim, `acquireResource` returns normally, and `operate` executes the operation and logs it | T1 (start 3) holds A; T2 (start 2) holds B and waits for A; T1 operates on B | the self-aborted requester raises `ActiveTransactionAborted` and executes nothing | high, not executed | AsWritten.SelfAbortedExecutesOnForeignResource | Manager.Operate |
| solution/MyTransactionManager.java:286 | `transactionStart.contains(tid)` tests the map's values (start times), so rollback returns at once when some start time equals the caller's thread id | thread 5 starts at time 5 and rolls back | return early only when the caller has no transaction | high, not executed | AsWritten.RollbackSkippedWhenStartEqualsTid | Manager.Rollback |
| solution/MyTransactionManager.java:146-149 | a victim other than the requester is aborted but keeps its wait edge, so the cycle stays in the wait-for graph | T1 (start 3) holds A and waits for B; T2 (start 2) holds B and asks for A (T1 is the victim); then T3 (start 4) asks for A: its walk goes 1, 2, 1, 2, … inside the gate forever | withdraw the victim's wait edge with its abort | high, not executed | AsWritten.ThirdThreadHangs | WaitForGraph.NeverHangs |
