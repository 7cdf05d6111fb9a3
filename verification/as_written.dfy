/** Three places where the source does something other than what it evidently means,
    each modelled as written, with an input that shows the difference. The rest of
    the model uses the corrected behaviour (Detector.Detect, Manager.Operate,
    Manager.Rollback). */
module AsWritten {
  import opened TxState
  import opened Detector
  import opened Manager
  import opened WalkTermination

  /** The detector as written: a victim other than the requester is marked aborted
      but keeps its wait edge; neither the detector nor the victim's failed acquire
      removes it. Otherwise it decides as Detect does. */
  function DetectAsWritten(s: State, tid: Tid, rid: Rid): (d: Decision)
    requires StartsKnown(s, tid) && tid in s.status
    ensures var w := DetectWalk(s, tid, rid);
      && (d.SelfAborted? <==> w.outcome == ReachedRequester && w.victim == tid)
      && (d.Diverged? <==> w.outcome == OutOfFuel)
    ensures d.state.owner == s.owner && d.state.held == s.held
    ensures d.state.start == s.start && d.state.log == s.log
    ensures !d.SelfAborted? ==> d.state.requested == s.requested[tid := rid]
    ensures Valid(s) ==> Valid(d.state)
  {
    var p := Publish(s, tid, rid);
    var w := DetectWalk(s, tid, rid);
    match w.outcome
    case ReachedRequester =>
      if w.victim == tid then SelfAborted(AbortWaiter(p, tid))
      else Proceed(p.(status := MarkAborted(p.status, w.victim)))
    case NoWaitEdge => Proceed(p)
    case OutOfFuel => Diverged(p)
  }

  /** The detector as written and the corrected one make the same decision and mark the
      same threads aborted; they differ only in that, as written, a victim other than
      the requester keeps its wait edge. */
  lemma DetectsDifferOnlyInVictimEdge(s: State, tid: Tid, rid: Rid)
    requires StartsKnown(s, tid) && tid in s.status
    ensures var d := DetectAsWritten(s, tid, rid);
      var c := Detect(s, tid, rid);
      var w := DetectWalk(s, tid, rid);
      && d.SelfAborted? == c.SelfAborted? && d.Diverged? == c.Diverged?
      && d.state.status == c.state.status
      && (d.Proceed? && w.outcome == ReachedRequester ==>
            Get(d.state.requested, w.victim) == Get(s.requested, w.victim)
            && w.victim !in c.state.requested)
  {
    var w := DetectWalk(s, tid, rid);
    var p := Publish(s, tid, rid);
    if w.outcome == ReachedRequester && w.victim != tid {
      assert DetectAsWritten(s, tid, rid).state.status == MarkAborted(p.status, w.victim);
      assert Detect(s, tid, rid).state == AbortWaiter(p, w.victim);
    }
  }

  /** The acquisition path as written: after a self-abort `acquireResource` simply
      returns, and `operate` goes on to execute the operation and log it. */
  function AcquireNewAsWritten(s: State, tid: Tid, rid: Rid, op: Op, ok: bool): (st: Step)
    requires Valid(s) && tid in s.status && !IsAborted(s, tid) && rid !in s.held[tid]
    ensures DetectAsWritten(s, tid, rid).SelfAborted? ==>
      && st.calls == [Execute(rid, op)]
      && IsAborted(st.state, tid)
      && st.state.owner == s.owner
  {
    match DetectAsWritten(s, tid, rid)
    case SelfAborted(s1) => RunOperation(s1, tid, rid, op, ok)
    case Diverged(s1) => Step(s1, Hung, [])
    case Proceed(s1) => Acquire(s1, tid, rid, op, ok)
  }

  /** `operateOnResourceInCurrentTransaction` as written. */
  function OperateAsWritten(s: State, tid: Tid, resources: seq<Rid>, rid: Rid, op: Op, ok: bool): (st: Step)
    requires Valid(s)
    ensures IsAborted(s, tid) ==> st == Step(s, Raised(ActiveTransactionAborted), [])
    ensures !IsAborted(s, tid) && !IsActive(s, tid) ==> st == Step(s, Raised(NoActiveTransaction), [])
    ensures IsActive(s, tid) && !IsAborted(s, tid) && rid !in resources ==>
      st == Step(s, Raised(UnknownResourceId), [])
  {
    if IsAborted(s, tid) then Step(s, Raised(ActiveTransactionAborted), [])
    else if !IsActive(s, tid) then Step(s, Raised(NoActiveTransaction), [])
    else if FindResourceById(resources, rid).None? then Step(s, Raised(UnknownResourceId), [])
    else if rid in s.held[tid] then RunOperation(s, tid, rid, op, ok)
    else AcquireNewAsWritten(s, tid, rid, op, ok)
  }

  /** For a live, not aborted caller and a known resource it does not hold yet, both
      versions of operate take the acquisition path. */
  lemma OperateAcquires(s: State, tid: Tid, resources: seq<Rid>, rid: Rid, op: Op, ok: bool)
    requires Valid(s) && tid in s.status && !IsAborted(s, tid) && rid in resources && rid !in s.held[tid]
    ensures Operate(s, tid, resources, rid, op, ok) == AcquireNew(s, tid, rid, op, ok)
  {
  }

  lemma OperateAsWrittenAcquires(s: State, tid: Tid, resources: seq<Rid>, rid: Rid, op: Op, ok: bool)
    requires Valid(s) && tid in s.status && !IsAborted(s, tid) && rid in resources && rid !in s.held[tid]
    ensures OperateAsWritten(s, tid, resources, rid, op, ok) == AcquireNewAsWritten(s, tid, rid, op, ok)
  {
  }

  /** The invariant does not mention wait edges. */
  lemma ValidIgnoresEdges(s: State, requested: map<Tid, Rid>)
    requires Valid(s)
    ensures Valid(s.(requested := requested))
  {
  }

  /** When the detector lets the caller proceed, it goes on to the lock. */
  lemma ProceedAcquires(s: State, tid: Tid, rid: Rid, op: Op, ok: bool)
    requires Valid(s) && tid in s.status && !IsAborted(s, tid) && rid !in s.held[tid]
    requires Detect(s, tid, rid).Proceed?
    ensures AcquireNew(s, tid, rid, op, ok) == Acquire(Detect(s, tid, rid).state, tid, rid, op, ok)
  {
  }

  /** A free lock is granted and the operation runs. */
  lemma FreeGranted(s: State, tid: Tid, rid: Rid, op: Op, ok: bool)
    requires Valid(s) && tid in s.status && !IsAborted(s, tid) && rid !in s.owner
    ensures Acquire(s, tid, rid, op, ok) == RunOperation(Grant(s, tid, rid), tid, rid, op, ok)
  {
  }

  const A: Rid := 100
  const B: Rid := 200

  /** Two transactions: thread 1 started at time 3, thread 2 at time 2; nothing acquired yet. */
  function BothStarted(): State {
    State(map[1 := 3, 2 := 2], map[1 := Ongoing, 2 := Ongoing], map[1 := [], 2 := []],
          map[1 := {}, 2 := {}], map[], map[])
  }

  /** Thread 1 holds A. */
  function FirstHoldsA(): State {
    State(map[1 := 3, 2 := 2], map[1 := Ongoing, 2 := Ongoing], map[1 := [Entry(A, 7)], 2 := []],
          map[1 := {A}, 2 := {}], map[A := 1], map[])
  }

  /** Thread 1 holds A and thread 2 holds B. */
  function EachHoldsOne(): State {
    State(map[1 := 3, 2 := 2], map[1 := Ongoing, 2 := Ongoing],
          map[1 := [Entry(A, 7)], 2 := [Entry(B, 8)]],
          map[1 := {A}, 2 := {B}], map[A := 1, B := 2], map[])
  }

  /** Thread 2 also waits for A: the state just before thread 1 asks for B. */
  function CrossedWaits(): State {
    EachHoldsOne().(requested := map[2 := A])
  }

  lemma ReachBothStarted()
    ensures Start(Start(Init(), 1, 3).state, 2, 2).state == BothStarted()
    ensures Valid(BothStarted())
  {
    InitValid();
  }

  /** Thread 1 is granted A: it owns and holds A and waits for nothing. */
  lemma FirstGrantedA()
    ensures Grant(Publish(BothStarted(), 1, A), 1, A) == FirstHoldsA().(log := BothStarted().log)
  {
    var g := Grant(Publish(BothStarted(), 1, A), 1, A);
    assert g.requested.Keys == {};
    assert g.held.Keys == {1, 2} && g.held[1] == {A} && g.held[2] == {};
  }

  /** Thread 1 asks for A, which nobody owns: the detector lets it proceed. */
  lemma FirstFindsAFree()
    ensures Detect(BothStarted(), 1, A) == Proceed(Publish(BothStarted(), 1, A))
  {
    assert StartsKnown(BothStarted(), 1);
    assert DetectWalk(BothStarted(), 1, A).outcome == NoWaitEdge;
  }

  /** Thread 1 runs its operation on A and logs it. */
  lemma FirstExecutesOnA()
    ensures RunOperation(Grant(Publish(BothStarted(), 1, A), 1, A), 1, A, 7, true)
      == Step(FirstHoldsA(), Done, [Execute(A, 7)])
  {
    FirstGrantedA();
    var g := Grant(Publish(BothStarted(), 1, A), 1, A);
    assert g.log[1] + [Entry(A, 7)] == [Entry(A, 7)];
    assert g.log[1 := [Entry(A, 7)]] == FirstHoldsA().log;
  }

  lemma ReachFirstHoldsA()
    ensures Operate(BothStarted(), 1, [A, B], A, 7, true) == Step(FirstHoldsA(), Done, [Execute(A, 7)])
    ensures Valid(FirstHoldsA())
  {
    var s := BothStarted();
    ReachBothStarted();
    OperateAcquires(s, 1, [A, B], A, 7, true);
    FirstFindsAFree();
    ProceedAcquires(s, 1, A, 7, true);
    var p := Publish(s, 1, A);
    ValidIgnoresEdges(s, p.requested);
    FreeGranted(p, 1, A, 7, true);
    FirstExecutesOnA();
  }

  /** Thread 2 is granted B while thread 1 keeps A. */
  lemma SecondGrantedB()
    ensures Grant(Publish(FirstHoldsA(), 2, B), 2, B) == EachHoldsOne().(log := FirstHoldsA().log)
  {
    var g := Grant(Publish(FirstHoldsA(), 2, B), 2, B);
    assert g.requested.Keys == {};
    assert g.held.Keys == {1, 2} && g.held[1] == {A} && g.held[2] == {B};
  }

  /** Thread 2 asks for B, which nobody owns: the detector lets it proceed. */
  lemma SecondFindsBFree()
    ensures Detect(FirstHoldsA(), 2, B) == Proceed(Publish(FirstHoldsA(), 2, B))
  {
    assert StartsKnown(FirstHoldsA(), 2);
    assert DetectWalk(FirstHoldsA(), 2, B).outcome == NoWaitEdge;
  }

  /** Thread 2 runs its operation on B and logs it. */
  lemma SecondExecutesOnB()
    ensures RunOperation(Grant(Publish(FirstHoldsA(), 2, B), 2, B), 2, B, 8, true)
      == Step(EachHoldsOne(), Done, [Execute(B, 8)])
  {
    SecondGrantedB();
    var g := Grant(Publish(FirstHoldsA(), 2, B), 2, B);
    assert g.log == FirstHoldsA().log;
    assert FirstHoldsA().log[2] == [];
    assert g.log[2] + [Entry(B, 8)] == [Entry(B, 8)];
    assert g.log[2 := [Entry(B, 8)]] == EachHoldsOne().log;
  }

  lemma ReachEachHoldsOne()
    ensures Operate(FirstHoldsA(), 2, [A, B], B, 8, true) == Step(EachHoldsOne(), Done, [Execute(B, 8)])
    ensures Valid(EachHoldsOne())
  {
    var s := FirstHoldsA();
    ReachFirstHoldsA();
    OperateAcquires(s, 2, [A, B], B, 8, true);
    SecondFindsBFree();
    ProceedAcquires(s, 2, B, 8, true);
    var p := Publish(s, 2, B);
    ValidIgnoresEdges(s, p.requested);
    FreeGranted(p, 2, B, 8, true);
    SecondExecutesOnB();
  }

  /** The states of the trace below satisfy the invariant, because each is reached by a
      transition from one that does. */
  lemma EachHoldsOneValid()
    ensures Valid(EachHoldsOne())
  {
    ReachEachHoldsOne();
  }

  lemma CrossedWaitsValid()
    ensures Valid(CrossedWaits())
  {
    EachHoldsOneValid();
    ValidIgnoresEdges(EachHoldsOne(), map[2 := A]);
  }

  lemma FirstWaitsValid()
    ensures Valid(FirstWaits())
  {
    EachHoldsOneValid();
    ValidIgnoresEdges(EachHoldsOne(), map[1 := B]);
  }

  lemma ReachCrossedWaits()
    ensures Operate(EachHoldsOne(), 2, [A, B], A, 9, true) == Step(CrossedWaits(), Waiting, [])
  {
    var s := EachHoldsOne();
    EachHoldsOneValid();
    OperateAcquires(s, 2, [A, B], A, 9, true);
    var p := Publish(s, 2, A);
    assert Next(p, 1) == None;
    assert DetectWalk(s, 2, A).outcome == NoWaitEdge;
    assert Detect(s, 2, A) == Proceed(p);
    ProceedAcquires(s, 2, A, 9, true);
  }

  /** Thread 1 asks for B: the walk visits thread 2 and comes back to thread 1, the newer. */
  lemma CrossedWaitsWalk()
    ensures DetectWalk(CrossedWaits(), 1, B) == WalkResult(ReachedRequester, 1, [2])
  {
    assert StartsKnown(CrossedWaits(), 1);
    var p := Publish(CrossedWaits(), 1, B);
    assert |p.requested| == 2 by {
      assert p.requested.Keys == {1, 2};
    }
    assert Next(p, 2) == Some(1);
    assert !Newer(p, 2, 1);
    assert WalkFrom(p, 1, Some(1), 1, 1) == WalkResult(ReachedRequester, 1, []);
  }

  /** Thread 1 (the newer transaction) closes the cycle and elects itself victim. As
      written, it then executes its operation on B, which thread 2 owns. */
  lemma SelfAbortedExecutesOnForeignResource()
    ensures Valid(CrossedWaits())
    ensures var st := OperateAsWritten(CrossedWaits(), 1, [A, B], B, 9, true);
      && st.calls == [Execute(B, 9)]
      && Get(st.state.owner, B) == Some(2)
      && IsAborted(st.state, 1)
      && Get(st.state.log, 1) == Some([Entry(A, 7), Entry(B, 9)])
  {
    CrossedWaitsValid();
    CrossedWaitsAsWritten();
    SelfAbortedRun();
  }

  /** The operation the self-aborted thread 1 goes on to run, as written. */
  lemma SelfAbortedRun()
    ensures var st := RunOperation(AbortWaiter(Publish(CrossedWaits(), 1, B), 1), 1, B, 9, true);
      && st.calls == [Execute(B, 9)]
      && Get(st.state.owner, B) == Some(2)
      && IsAborted(st.state, 1)
      && Get(st.state.log, 1) == Some([Entry(A, 7), Entry(B, 9)])
  {
    var s1 := AbortWaiter(Publish(CrossedWaits(), 1, B), 1);
    assert s1.log == CrossedWaits().log;
    assert CrossedWaits().log[1] == [Entry(A, 7)];
    assert [Entry(A, 7)] + [Entry(B, 9)] == [Entry(A, 7), Entry(B, 9)];
  }

  lemma CrossedWaitsAsWritten()
    ensures OperateAsWritten(CrossedWaits(), 1, [A, B], B, 9, true)
      == RunOperation(AbortWaiter(Publish(CrossedWaits(), 1, B), 1), 1, B, 9, true)
  {
    CrossedWaitsValid();
    OperateAsWrittenAcquires(CrossedWaits(), 1, [A, B], B, 9, true);
    CrossedWaitsSelfAbort();
  }

  lemma CrossedWaitsSelfAbort()
    ensures DetectAsWritten(CrossedWaits(), 1, B) == SelfAborted(AbortWaiter(Publish(CrossedWaits(), 1, B), 1))
  {
    CrossedWaitsWalk();
    assert StartsKnown(CrossedWaits(), 1);
  }

  /** The corrected operate on the same state raises ActiveTransactionAborted and
      executes nothing. */
  lemma SelfAbortedRaisesInstead()
    ensures var st := Operate(CrossedWaits(), 1, [A, B], B, 9, true);
      && st.reply == Raised(ActiveTransactionAborted) && st.calls == []
      && IsAborted(st.state, 1) && st.state.log == CrossedWaits().log
  {
    var s := CrossedWaits();
    CrossedWaitsValid();
    CrossedWaitsWalk();
    OperateAcquires(s, 1, [A, B], B, 9, true);
    assert Detect(s, 1, B).SelfAborted?;
  }

  /** `rollbackCurrentTransaction` as written: its guard `transactionStart.contains(tid)`
      is `containsValue`, so it returns at once when some transaction started at time `tid`. */
  function RollbackAsWritten(s: State, tid: Tid): (st: Step)
    ensures tid in s.start.Values ==> st == Step(s, Done, [])
    ensures tid !in s.start.Values ==> st == Rollback(s, tid)
    // an active caller's transaction survives its rollback exactly when its id is a start time
    ensures Valid(s) && IsActive(s, tid) ==> (IsActive(st.state, tid) <==> tid in s.start.Values)
  {
    if tid in s.start.Values then Step(s, Done, []) else Rollback(s, tid)
  }

  /** Thread 5 starting its transaction at time 5 can never roll it back as written:
      the record stays, and it cannot start another one. */
  lemma RollbackSkippedWhenStartEqualsTid()
    ensures var s := Start(Init(), 5, 5).state;
      var st := RollbackAsWritten(s, 5);
      && st.state == s && IsActive(st.state, 5)
      && Start(st.state, 5, 6).reply == Raised(AnotherTransactionActive)
      && !IsActive(Rollback(s, 5).state, 5)
  {
    var s := Start(Init(), 5, 5).state;
    assert s.start[5] == 5;
  }

  /** From EachHoldsOne: thread 1 waits for B, which thread 2 holds. */
  function FirstWaits(): State {
    EachHoldsOne().(requested := map[1 := B])
  }

  /** Thread 2, the older one, then asked for A and closed the cycle; thread 1 was chosen
      as victim and aborted, but, as written, still waits for B. */
  function VictimStillWaits(): State {
    EachHoldsOne().(status := map[1 := Aborted, 2 := Ongoing], requested := map[1 := B, 2 := A])
  }

  /** A third transaction, started at time 4. */
  function ThirdStarted(): State {
    State(map[1 := 3, 2 := 2, 3 := 4], map[1 := Aborted, 2 := Ongoing, 3 := Ongoing],
          map[1 := [Entry(A, 7)], 2 := [Entry(B, 8)], 3 := []],
          map[1 := {A}, 2 := {B}, 3 := {}], map[A := 1, B := 2], map[1 := B, 2 := A])
  }

  lemma ReachFirstWaits()
    ensures OperateAsWritten(EachHoldsOne(), 1, [A, B], B, 9, true) == Step(FirstWaits(), Waiting, [])
  {
    var s := EachHoldsOne();
    EachHoldsOneValid();
    OperateAsWrittenAcquires(s, 1, [A, B], B, 9, true);
    var p := Publish(s, 1, B);
    assert Next(p, 2) == None;
    assert DetectWalk(s, 1, B).outcome == NoWaitEdge;
    assert p == FirstWaits();
  }

  /** Thread 2 asks for A: the walk visits thread 1, the newer, and comes back to thread 2. */
  lemma FirstWaitsWalk()
    ensures DetectWalk(FirstWaits(), 2, A) == WalkResult(ReachedRequester, 1, [1])
  {
    assert StartsKnown(FirstWaits(), 2);
    var p := Publish(FirstWaits(), 2, A);
    assert |p.requested| == 2 by {
      assert p.requested.Keys == {1, 2};
    }
    assert Next(p, 1) == Some(2);
    assert Newer(p, 1, 2);
    assert WalkFrom(p, 2, Some(2), 1, 1) == WalkResult(ReachedRequester, 1, []);
  }

  lemma DetectKeepsVictimEdge()
    ensures DetectAsWritten(FirstWaits(), 2, A) == Proceed(VictimStillWaits())
    ensures Valid(VictimStillWaits())
  {
    var s := FirstWaits();
    FirstWaitsValid();
    FirstWaitsWalk();
    var p := Publish(s, 2, A);
    assert p.requested == map[1 := B, 2 := A];
    assert MarkAborted(p.status, 1) == map[1 := Aborted, 2 := Ongoing];
  }

  lemma ReachVictimStillWaits()
    ensures OperateAsWritten(FirstWaits(), 2, [A, B], A, 10, true) == Step(VictimStillWaits(), Waiting, [])
  {
    FirstWaitsValid();
    FirstWaitsWalk();
    OperateAsWrittenAcquires(FirstWaits(), 2, [A, B], A, 10, true);
    DetectKeepsVictimEdge();
  }

  /** The victim's wake-up raises Interrupted and leaves its wait edge in place. */
  lemma VictimInterrupted()
    ensures Resume(VictimStillWaits(), 1, B, 9, true) == Step(VictimStillWaits(), Raised(Interrupted), [])
  {
    DetectKeepsVictimEdge();
  }

  lemma ReachThirdStarted()
    ensures Start(VictimStillWaits(), 3, 4) == Step(ThirdStarted(), Done, [])
    ensures Valid(ThirdStarted())
  {
    DetectKeepsVictimEdge();
  }

  /** Thread 3 asks for A: the walk goes 1, 2, 1 and runs out of fuel. */
  lemma ThirdStartedWalk()
    ensures DetectWalk(ThirdStarted(), 3, A).outcome == OutOfFuel
  {
    var s := ThirdStarted();
    assert StartsKnown(s, 3);
    var p := Publish(s, 3, A);
    assert |p.requested| == 3 by {
      assert p.requested.Keys == {1, 2, 3};
    }
    assert Next(p, 1) == Some(2) && Next(p, 2) == Some(1);
    assert !Newer(p, 1, 3) && !Newer(p, 2, 3);
    assert WalkFrom(p, 3, Some(2), 3, 0).outcome == OutOfFuel;
    assert WalkFrom(p, 3, Some(1), 3, 1).outcome == OutOfFuel;
    assert WalkFrom(p, 3, Some(2), 3, 2).outcome == OutOfFuel;
  }

  lemma ThirdStartedValid()
    ensures Valid(ThirdStarted())
  {
    ReachThirdStarted();
  }

  lemma ThirdThreadDiverges()
    ensures Valid(ThirdStarted())
    ensures OperateAsWritten(ThirdStarted(), 3, [A, B], A, 11, true).reply == Hung
  {
    ThirdStartedValid();
    ThirdStartedWalk();
    OperateAsWrittenAcquires(ThirdStarted(), 3, [A, B], A, 11, true);
  }

  /** Thread 3 asks for A. As written, the walk goes 1, 2, 1, 2, ... forever: the call
      never returns, and it never releases the detector gate. */
  lemma ThirdThreadHangs()
    ensures Valid(ThirdStarted())
    ensures OperateAsWritten(ThirdStarted(), 3, [A, B], A, 11, true).reply == Hung
    ensures var p := Publish(ThirdStarted(), 3, A);
      forall k: nat :: !Stops(3, Chain(p, Get(p.owner, A), k))
  {
    var s := ThirdStarted();
    ThirdThreadDiverges();
    ThirdStartedWalk();
    var p := Publish(s, 3, A);
    assert StartsKnown(p, 3);
    forall k: nat
      ensures !Stops(3, Chain(p, Get(p.owner, A), k))
    {
      OutOfFuelNeverStops(p, 3, Get(p.owner, A), 3, k);
    }
  }
}
