/** The transaction API: each public operation of the manager as one atomic
    transition of the global state, for the calling thread `tid`. */
module Manager {
  import opened TxState
  import opened Detector

  /** `isTransactionAborted`: the caller's transaction is marked ABORTED. */
  function IsAborted(s: State, tid: Tid): (r: bool)
    ensures r <==> Get(s.status, tid) == Some(Aborted)
    ensures r ==> tid in s.status
  {
    tid in s.status && s.status[tid] == Aborted
  }

  /** `isTransactionActive`: ONGOING or ABORTED, so an aborted transaction is still active. */
  function IsActive(s: State, tid: Tid): (r: bool)
    ensures r <==> tid in s.status
    ensures IsAborted(s, tid) ==> r
  {
    (tid in s.status && s.status[tid] == Ongoing) || IsAborted(s, tid)
  }

  /** `findResourceById`: the position of the first resource with id `rid`, if any. */
  function FindResourceById(resources: seq<Rid>, rid: Rid): (r: Option<nat>)
    ensures r.None? <==> rid !in resources
    ensures r.Some? ==> r.value < |resources| && resources[r.value] == rid
    ensures r.Some? ==> forall j :: 0 <= j < r.value ==> resources[j] != rid
  {
    if resources == [] then None
    else if resources[0] == rid then Some(0)
    else
      match FindResourceById(resources[1..], rid)
      case None => None
      case Some(i) => Some(i + 1)
  }

  /** `startTransaction` at time `now`. */
  function Start(s: State, tid: Tid, now: int): (st: Step)
    ensures st.calls == []
    ensures IsActive(s, tid) ==> st.state == s && st.reply == Raised(AnotherTransactionActive)
    ensures !IsActive(s, tid) ==>
      && st.reply == Done
      && IsActive(st.state, tid) && !IsAborted(st.state, tid)
      && Get(st.state.start, tid) == Some(now)
      && Get(st.state.log, tid) == Some([]) && Get(st.state.held, tid) == Some({})
    // no other thread's record, no ownership and no wait edge changes
    ensures forall t :: t != tid ==>
      && Get(st.state.start, t) == Get(s.start, t) && Get(st.state.status, t) == Get(s.status, t)
      && Get(st.state.log, t) == Get(s.log, t) && Get(st.state.held, t) == Get(s.held, t)
    ensures st.state.owner == s.owner && st.state.requested == s.requested
    ensures Valid(s) ==> Valid(st.state)
  {
    if IsActive(s, tid) then Step(s, Raised(AnotherTransactionActive), [])
    else
      var s' := s.(start := s.start[tid := now], status := s.status[tid := Ongoing],
                   log := s.log[tid := []], held := s.held[tid := {}]);
      Step(s', Done, [])
  }

  /** `operation.execute(resource)`, then, on success, the push onto the undo log. */
  function RunOperation(s: State, tid: Tid, rid: Rid, op: Op, ok: bool): (st: Step)
    requires tid in s.log
    ensures st.calls == [Execute(rid, op)]
    ensures st.reply == (if ok then Done else Raised(ResourceOperationError))
    ensures ok ==> st.state == s.(log := s.log[tid := s.log[tid] + [Entry(rid, op)]])
    ensures !ok ==> st.state == s
  {
    if ok then Step(s.(log := s.log[tid := s.log[tid] + [Entry(rid, op)]]), Done, [Execute(rid, op)])
    else Step(s, Raised(ResourceOperationError), [Execute(rid, op)])
  }

  /** The bookkeeping after the resource lock is granted: the wait edge goes,
      the caller becomes the owner and the resource joins its held set. */
  function Grant(s: State, tid: Tid, rid: Rid): (r: State)
    requires tid in s.held
    ensures Valid(s) && tid in s.status && rid !in s.owner ==> Valid(r)
    ensures rid in r.owner && tid in r.held
    ensures tid !in r.requested && r.owner[rid] == tid && r.held[tid] == s.held[tid] + {rid}
    // nothing else changes: other wait edges, held sets and owners, and every record
    ensures forall t :: t != tid ==>
      Get(r.requested, t) == Get(s.requested, t) && Get(r.held, t) == Get(s.held, t)
    ensures forall x :: x != rid ==> Get(r.owner, x) == Get(s.owner, x)
    ensures r.start == s.start && r.status == s.status && r.log == s.log
  {
    s.(requested := s.requested - {tid}, owner := s.owner[rid := tid],
       held := s.held[tid := s.held[tid] + {rid}])
  }

  /** The blocking acquire of `rid`'s lock and what follows it: an aborted (hence
      interrupted) caller raises Interrupted, leaving its wait edge in place; a busy lock
      keeps the caller waiting; a free lock is granted and the operation executed. */
  function Acquire(s: State, tid: Tid, rid: Rid, op: Op, ok: bool): (st: Step)
    requires Valid(s) && tid in s.status
    ensures Valid(st.state)
    ensures IsAborted(s, tid) ==> st == Step(s, Raised(Interrupted), [])
    ensures !IsAborted(s, tid) && rid in s.owner ==> st == Step(s, Waiting, [])
    ensures !IsAborted(s, tid) && rid !in s.owner ==>
      && st.calls == [Execute(rid, op)]
      && st.reply == (if ok then Done else Raised(ResourceOperationError))
      && rid in st.state.owner && tid in st.state.held
      && tid !in st.state.requested && st.state.owner[rid] == tid
      && st.state.held[tid] == s.held[tid] + {rid}
      && st.state.status == s.status && st.state.start == s.start
      && (forall t :: t != tid ==>
            Get(st.state.requested, t) == Get(s.requested, t) && Get(st.state.held, t) == Get(s.held, t))
      && (forall x :: x != rid ==> Get(st.state.owner, x) == Get(s.owner, x))
    ensures forall c :: c in st.calls ==>
      && c == Execute(rid, op) && Get(st.state.owner, rid) == Some(tid)
      && tid in st.state.held && rid in st.state.held[tid]
    ensures st.reply == Done ==> ok && Get(st.state.log, tid) == Some(s.log[tid] + [Entry(rid, op)])
    ensures st.reply != Done ==> st.state.log == s.log
    ensures forall t :: t != tid ==> Get(st.state.log, t) == Get(s.log, t)
    ensures st.reply == Raised(ResourceOperationError) ==> !ok && st.state.status == s.status
  {
    if IsAborted(s, tid) then Step(s, Raised(Interrupted), [])
    else if rid in s.owner then Step(s, Waiting, [])
    else RunOperation(Grant(s, tid, rid), tid, rid, op, ok)
  }

  /** The acquisition path of `operate` for a resource the caller does not hold yet:
      the detector, then the lock. */
  function AcquireNew(s: State, tid: Tid, rid: Rid, op: Op, ok: bool): (st: Step)
    requires Valid(s) && tid in s.status && !IsAborted(s, tid) && rid !in s.held[tid]
    ensures Valid(st.state)
    ensures forall c :: c in st.calls ==>
      && c == Execute(rid, op) && Get(st.state.owner, rid) == Some(tid)
      && tid in st.state.held && rid in st.state.held[tid]
    ensures st.reply == Done ==> st.calls == [Execute(rid, op)] && ok
    ensures st.reply == Done ==> Get(st.state.log, tid) == Some(s.log[tid] + [Entry(rid, op)])
    ensures st.reply != Done ==> st.state.log == s.log
    ensures st.reply == Raised(ResourceOperationError) ==>
      && !ok && st.calls == [Execute(rid, op)]
      && IsActive(st.state, tid) && !IsAborted(st.state, tid)
      && tid in st.state.held && rid in st.state.held[tid]
    // the reply follows the detector's decision
    ensures StartsKnown(s, tid) &&
      var d := Detect(s, tid, rid);
      && (d.SelfAborted? ==> st == Step(d.state, Raised(ActiveTransactionAborted), []))
      && (d.Diverged? ==> st == Step(d.state, Hung, []))
      && (d.Proceed? && rid in s.owner ==> st == Step(d.state, Waiting, []))
      && (d.Proceed? && rid !in s.owner ==>
            && st.calls == [Execute(rid, op)]
            && st.reply == (if ok then Done else Raised(ResourceOperationError))
            && Get(st.state.owner, rid) == Some(tid)
            && tid !in st.state.requested && st.state.status == d.state.status
            && (forall t :: t != tid ==>
                  Get(st.state.requested, t) == Get(d.state.requested, t) && Get(st.state.held, t) == Get(s.held, t))
            && (forall x :: x != rid ==> Get(st.state.owner, x) == Get(s.owner, x)))
    // start times and other threads' logs never change
    ensures st.state.start == s.start
    ensures forall t :: t != tid ==> Get(st.state.log, t) == Get(s.log, t)
  {
    assert StartsKnown(s, tid);
    var d := Detect(s, tid, rid);
    assert Valid(d.state) && d.state.log == s.log;
    match d
    case SelfAborted(s1) => Step(s1, Raised(ActiveTransactionAborted), [])
    case Diverged(s1) => Step(s1, Hung, [])
    case Proceed(s1) =>
      assert Get(s1.status, tid) == Get(s.status, tid);
      Acquire(s1, tid, rid, op, ok)
  }

  /** `operateOnResourceInCurrentTransaction(rid, op)`; `ok` is whether `execute` succeeds
      and `resources` the manager's resource collection. */
  function Operate(s: State, tid: Tid, resources: seq<Rid>, rid: Rid, op: Op, ok: bool): (st: Step)
    requires Valid(s)
    // the preconditions, checked in this order, each leaving the state alone
    ensures IsAborted(s, tid) ==> st == Step(s, Raised(ActiveTransactionAborted), [])
    ensures !IsAborted(s, tid) && !IsActive(s, tid) ==> st == Step(s, Raised(NoActiveTransaction), [])
    ensures IsActive(s, tid) && !IsAborted(s, tid) && rid !in resources ==>
      st == Step(s, Raised(UnknownResourceId), [])
    // an operation runs only on a resource the caller owns, and is logged iff it succeeded
    ensures forall c :: c in st.calls ==>
      && c == Execute(rid, op) && Get(st.state.owner, rid) == Some(tid)
      && tid in st.state.held && rid in st.state.held[tid]
    ensures st.reply == Done ==> st.calls == [Execute(rid, op)] && ok
    ensures st.reply == Done ==> Get(st.state.log, tid) == Some(s.log[tid] + [Entry(rid, op)])
    ensures st.reply != Done ==> st.state.log == s.log
    // a failed operation ran once, and keeps the transaction ONGOING and the resource held
    ensures st.reply == Raised(ResourceOperationError) ==>
      && !ok && st.calls == [Execute(rid, op)]
      && IsActive(st.state, tid) && !IsAborted(st.state, tid)
      && tid in st.state.held && rid in st.state.held[tid]
    // the preconditions passed and the resource is new to the caller: the detector decides
    ensures IsActive(s, tid) && !IsAborted(s, tid) && rid in resources && rid !in s.held[tid] ==>
      && StartsKnown(s, tid)
      && var d := Detect(s, tid, rid);
      && (d.SelfAborted? ==> st == Step(d.state, Raised(ActiveTransactionAborted), []))
      && (d.Diverged? ==> st == Step(d.state, Hung, []))
      && (d.Proceed? && rid in s.owner ==> st == Step(d.state, Waiting, []))
      && (d.Proceed? && rid !in s.owner ==>
            && st.calls == [Execute(rid, op)]
            && st.reply == (if ok then Done else Raised(ResourceOperationError))
            && Get(st.state.owner, rid) == Some(tid))
    // the preconditions passed and the resource was held already: no wait edge, no detector
    ensures IsActive(s, tid) && !IsAborted(s, tid) && rid in resources && rid in s.held[tid] ==>
      && st.state.requested == s.requested && st.state.status == s.status
      && st.state.owner == s.owner && st.state.held == s.held
    // ... and nothing changes but the caller's log, which grows only on success
    ensures IsActive(s, tid) && !IsAborted(s, tid) && rid in resources && rid in s.held[tid] ==>
      tid in s.log && st.state == (if ok then s.(log := s.log[tid := s.log[tid] + [Entry(rid, op)]]) else s)
    // start times and other threads' logs never change
    ensures st.state.start == s.start
    ensures forall t :: t != tid ==> Get(st.state.log, t) == Get(s.log, t)
    ensures Valid(st.state)
  {
    if IsAborted(s, tid) then Step(s, Raised(ActiveTransactionAborted), [])
    else if !IsActive(s, tid) then Step(s, Raised(NoActiveTransaction), [])
    else if FindResourceById(resources, rid).None? then Step(s, Raised(UnknownResourceId), [])
    else if rid in s.held[tid] then RunOperation(s, tid, rid, op, ok)
    else AcquireNew(s, tid, rid, op, ok)
  }

  /** The wake-up of a caller that `Operate` left waiting for `rid`'s lock: the lock was
      freed, or the caller was chosen as a deadlock victim and interrupted. */
  function Resume(s: State, tid: Tid, rid: Rid, op: Op, ok: bool): (st: Step)
    requires Valid(s) && tid in s.status
    ensures Valid(st.state)
    ensures IsAborted(s, tid) ==> st == Step(s, Raised(Interrupted), [])
    ensures !IsAborted(s, tid) && rid in s.owner ==> st == Step(s, Waiting, [])
    ensures st.reply == Done ==> Get(st.state.log, tid) == Some(s.log[tid] + [Entry(rid, op)])
    ensures forall c :: c in st.calls ==> c == Execute(rid, op) && Get(st.state.owner, rid) == Some(tid)
    // a freed lock is granted: the caller stops waiting, owns and holds it, and the operation runs
    ensures !IsAborted(s, tid) && rid !in s.owner ==>
      && st.calls == [Execute(rid, op)]
      && st.reply == (if ok then Done else Raised(ResourceOperationError))
      && Get(st.state.owner, rid) == Some(tid) && tid !in st.state.requested
      && tid in st.state.held && st.state.held[tid] == s.held[tid] + {rid}
      && st.state.status == s.status && st.state.start == s.start
      && (forall t :: t != tid ==>
            Get(st.state.requested, t) == Get(s.requested, t) && Get(st.state.held, t) == Get(s.held, t))
      && (forall x :: x != rid ==> Get(st.state.owner, x) == Get(s.owner, x))
    // the log grows only on success, and only the caller's
    ensures st.reply != Done ==> st.state.log == s.log
    ensures forall t :: t != tid ==> Get(st.state.log, t) == Get(s.log, t)
  {
    Acquire(s, tid, rid, op, ok)
  }

  /** `releaseResources`: frees every resource in the caller's held set and drops the set;
      with no held set it does nothing. */
  function Release(s: State, tid: Tid): (r: State)
    ensures tid !in s.held ==> r == s
    ensures r.held.Keys == s.held.Keys - {tid}
    ensures forall t :: t in r.held ==> r.held[t] == s.held[t]
    ensures tid in s.held ==> forall x :: x in s.held[tid] ==> x !in r.owner
    ensures forall x :: x in r.owner ==> x in s.owner && r.owner[x] == s.owner[x]
    ensures forall x :: x in s.owner && (tid !in s.held || x !in s.held[tid]) ==> x in r.owner
    ensures r.start == s.start && r.status == s.status && r.log == s.log && r.requested == s.requested
  {
    if tid !in s.held then s
    else s.(owner := s.owner - s.held[tid], held := s.held - {tid})
  }

  /** Dropping the caller's start time and status and then releasing its resources keeps
      the invariant. */
  lemma EndPreservesValid(s: State, tid: Tid, log: map<Tid, seq<Entry>>)
    requires log.Keys == s.log.Keys || log.Keys == s.log.Keys - {tid}
    requires forall t :: t in log && t != tid ==> log[t] == s.log[t]
    requires tid in log ==> log[tid] == []
    ensures Valid(s) ==> Valid(Release(s.(start := s.start - {tid}, status := s.status - {tid}, log := log), tid))
  {
    if Valid(s) {
      var e := s.(start := s.start - {tid}, status := s.status - {tid}, log := log);
      var r := Release(e, tid);
      forall x | x in r.owner
        ensures r.owner[x] in r.held && x in r.held[r.owner[x]]
      {
        assert x in s.owner;
      }
      forall t, x | t in r.held && x in r.held[t]
        ensures x in r.owner && r.owner[x] == t
      {
        assert x in s.held[t] && s.owner[x] == t;
      }
    }
  }

  /** `commitCurrentTransaction`. */
  function Commit(s: State, tid: Tid): (st: Step)
    ensures st.calls == []
    ensures IsAborted(s, tid) ==> st == Step(s, Raised(ActiveTransactionAborted), [])
    ensures !IsAborted(s, tid) && !IsActive(s, tid) ==> st == Step(s, Raised(NoActiveTransaction), [])
    ensures IsActive(s, tid) && !IsAborted(s, tid) ==>
      && st.reply == Done
      && !IsActive(st.state, tid) && tid !in st.state.log && tid !in st.state.held
      && (tid in s.held ==> forall x :: x in s.held[tid] ==> x !in st.state.owner)
      && st.state.requested == s.requested
    ensures forall t :: t != tid ==>
      && Get(st.state.status, t) == Get(s.status, t) && Get(st.state.held, t) == Get(s.held, t)
      && Get(st.state.start, t) == Get(s.start, t) && Get(st.state.log, t) == Get(s.log, t)
    ensures Valid(s) ==> Valid(st.state)
  {
    if IsAborted(s, tid) then Step(s, Raised(ActiveTransactionAborted), [])
    else if !IsActive(s, tid) then Step(s, Raised(NoActiveTransaction), [])
    else
      var e := s.(start := s.start - {tid}, status := s.status - {tid}, log := s.log - {tid});
      EndPreservesValid(s, tid, s.log - {tid});
      Step(Release(e, tid), Done, [])
  }

  /** The undo calls for a log, popped from the top: the newest entry first. */
  function UndoCalls(log: seq<Entry>): (calls: seq<Call>)
    ensures |calls| == |log|
    ensures forall i :: 0 <= i < |log| ==>
      calls[i] == Undo(log[|log| - 1 - i].rid, log[|log| - 1 - i].op)
  {
    if log == [] then []
    else
      var top := log[|log| - 1];
      [Undo(top.rid, top.op)] + UndoCalls(log[..|log| - 1])
  }

  /** `rollbackCurrentTransaction`, without the early-return guard of the source (see
      AsWritten.RollbackAsWritten): it drops the record, undoes the log newest first,
      empties the log and releases every held resource. */
  function Rollback(s: State, tid: Tid): (st: Step)
    ensures st.reply == Done
    ensures Valid(s) && !IsActive(s, tid) ==> st.state == s && st.calls == []
    ensures IsActive(s, tid) && tid in s.log ==> st.calls == UndoCalls(s.log[tid])
    ensures !IsActive(st.state, tid) && tid !in st.state.held
    ensures tid in s.held ==> forall x :: x in s.held[tid] ==> x !in st.state.owner
    ensures st.state.requested == s.requested
    ensures forall t :: t != tid ==>
      && Get(st.state.status, t) == Get(s.status, t) && Get(st.state.held, t) == Get(s.held, t)
      && Get(st.state.log, t) == Get(s.log, t) && Get(st.state.start, t) == Get(s.start, t)
    ensures Valid(s) ==> Valid(st.state)
  {
    var log := if tid in s.log then s.log[tid := []] else s.log;
    var e := s.(start := s.start - {tid}, status := s.status - {tid}, log := log);
    var calls := if tid in s.log then UndoCalls(s.log[tid]) else [];
    EndPreservesValid(s, tid, log);
    Step(Release(e, tid), Done, calls)
  }
}
