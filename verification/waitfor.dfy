/** The wait-for graph: a waiting thread points at the owner of the resource it waits
    for. Every transition of the manager keeps this graph free of cycles, because the
    detector breaks each cycle at the moment a request closes it (the victim's wait edge
    is withdrawn with its abort). Hence the detector's walk always ends and no call hangs. */
module WaitForGraph {
  import opened TxState
  import opened Detector
  import opened WalkTermination
  import opened Manager

  /** No thread reaches itself along the wait-for chain. */
  ghost predicate Acyclic(s: State) {
    forall x: Tid, k: nat :: k >= 1 ==> Chain(s, Some(x), k) != Some(x)
  }

  /** Every wait-for edge of `s'` is an edge of `s`. */
  ghost predicate SubGraph(s': State, s: State) {
    forall x :: Next(s', x).None? || Next(s', x) == Next(s, x)
  }

  lemma InitAcyclic()
    ensures Acyclic(Init())
  {
    forall x: Tid, k: nat | k >= 1
      ensures Chain(Init(), Some(x), k) != Some(x)
    {
      assert Chain(Init(), Some(x), k) == Chain(Init(), None, k - 1);
    }
  }

  lemma {:induction false} SubGraphChain(s': State, s: State, c: Option<Tid>, k: nat)
    requires SubGraph(s', s)
    ensures Chain(s', c, k).Some? ==> Chain(s', c, k) == Chain(s, c, k)
  {
    if k > 0 {
      SubGraphChain(s', s, c, k - 1);
      ChainSucc(s', c, k - 1);
      ChainSucc(s, c, k - 1);
    }
  }

  lemma SubGraphAcyclic(s': State, s: State)
    requires SubGraph(s', s) && Acyclic(s)
    ensures Acyclic(s')
  {
    forall x: Tid, k: nat | k >= 1
      ensures Chain(s', Some(x), k) != Some(x)
    {
      SubGraphChain(s', s, Some(x), k);
    }
  }

  /** Dropping wait edges or ownerships only removes wait-for edges. */
  lemma ShrinkSubGraph(s': State, s: State)
    requires forall x :: x in s'.requested ==> x in s.requested && s'.requested[x] == s.requested[x]
    requires forall r :: r in s'.owner ==> r in s.owner && s'.owner[r] == s.owner[r]
    ensures SubGraph(s', s)
  {
  }

  /** Two chains from the same start agree while the threads they pass have the same successor. */
  lemma {:induction false} ChainAgree(s': State, s: State, c: Option<Tid>, k: nat)
    requires forall j: nat :: j < k && Chain(s', c, j).Some? ==>
      Next(s', Chain(s', c, j).value) == Next(s, Chain(s', c, j).value)
    ensures Chain(s', c, k) == Chain(s, c, k)
  {
    if k > 0 {
      ChainAgree(s', s, c, k - 1);
      ChainSucc(s', c, k - 1);
      ChainSucc(s, c, k - 1);
    }
  }

  /** A cycle through `x` that passes `t` is a cycle through `t` of the same length. */
  lemma Rotate(s: State, x: Tid, t: Tid, i: nat, k: nat)
    requires Chain(s, Some(x), k) == Some(x) && Chain(s, Some(x), i) == Some(t)
    ensures Chain(s, Some(t), k) == Some(t)
  {
    ChainAdd(s, Some(x), i, k);
    ChainAdd(s, Some(x), k, i);
  }

  /** A chain that still has a cursor after `k` steps had one after every earlier step. */
  lemma ChainSomeBefore(s: State, c: Option<Tid>, j: nat, k: nat)
    requires j <= k && Chain(s, c, k).Some?
    ensures Chain(s, c, j).Some?
  {
    ChainAdd(s, c, j, k - j);
  }

  /** A request whose walk ended at a thread without a wait edge adds no cycle. */
  lemma PublishKeepsAcyclic(s: State, tid: Tid, rid: Rid)
    requires StartsKnown(s, tid) && tid in s.status && Acyclic(s)
    requires DetectWalk(s, tid, rid).outcome == NoWaitEdge
    ensures Acyclic(Publish(s, tid, rid))
  {
    var p := Publish(s, tid, rid);
    var c0 := Get(p.owner, rid);
    var n := |DetectWalk(s, tid, rid).visited|;
    DetectTerminatesIff(s, tid, rid);
    forall m: nat
      ensures Chain(p, c0, m) != Some(tid)
    {
      if m >= n {
        ChainAdd(p, c0, n, m - n);
      }
    }
    forall x: Tid, k: nat | k >= 1
      ensures Chain(p, Some(x), k) != Some(x)
    {
      if Chain(p, Some(x), k) == Some(x) {
        if i :| 0 <= i < k && Chain(p, Some(x), i) == Some(tid) {
          Rotate(p, x, tid, i, k);
        } else {
          ChainAgree(p, s, Some(x), k);
        }
      }
    }
  }

  /** Once the requester's edge is published, its chain runs through the walk's visited
      threads: within the walk it does not come back to the requester. */
  lemma ShortChainMissesRequester(s: State, tid: Tid, rid: Rid, k: nat)
    requires StartsKnown(s, tid) && tid in s.status
    requires 1 <= k <= |DetectWalk(s, tid, rid).visited|
    ensures Chain(Publish(s, tid, rid), Some(tid), k) != Some(tid)
  {
    var p := Publish(s, tid, rid);
    DetectTerminatesIff(s, tid, rid);
    assert Chain(p, Some(tid), k) == Chain(p, Get(p.owner, rid), k - 1);
  }

  /** A victim other than the requester is one of the threads on the requester's chain. */
  lemma VictimOnRequesterChain(s: State, tid: Tid, rid: Rid) returns (i0: nat)
    requires StartsKnown(s, tid) && tid in s.status
    requires DetectWalk(s, tid, rid).victim != tid
    ensures i0 < |DetectWalk(s, tid, rid).visited|
    ensures Chain(Publish(s, tid, rid), Some(tid), i0 + 1) == Some(DetectWalk(s, tid, rid).victim)
  {
    var p := Publish(s, tid, rid);
    var c0 := Get(p.owner, rid);
    var w := DetectWalk(s, tid, rid);
    assert StartsKnown(p, tid);
    assert c0.Some? ==> c0.value in p.start;
    WalkFollowsChain(p, tid, c0, tid, |p.requested|);
    i0 :| 0 <= i0 < |w.visited| && w.visited[i0] == w.victim;
    assert Chain(p, Some(tid), i0 + 1) == Chain(p, c0, i0);
  }

  /** Cutting the out-edge of a thread `v` on the chain from `tid`, before the chain could
      come back to `tid`, leaves `tid` on no cycle of any subgraph. */
  lemma CutOffCycle(q: State, p: State, tid: Tid, v: Tid, i0: nat, n: nat, k: nat)
    requires SubGraph(q, p) && Next(q, v) == None
    requires i0 < n && Chain(p, Some(tid), i0 + 1) == Some(v)
    requires forall m: nat :: 1 <= m <= n ==> Chain(p, Some(tid), m) != Some(tid)
    requires k >= 1
    ensures Chain(q, Some(tid), k) != Some(tid)
  {
    SubGraphChain(q, p, Some(tid), k);
    if k > n {
      SubGraphChain(q, p, Some(tid), i0 + 1);
      SinkCuts(q, Some(tid), i0 + 1, v, k);
    }
  }

  /** After a victim other than the requester is aborted and its wait edge withdrawn, the
      requester lies on no cycle: its chain reaches the victim, which now waits for nothing. */
  lemma RequesterOffCycle(s: State, tid: Tid, rid: Rid, k: nat)
    requires StartsKnown(s, tid) && tid in s.status
    requires DetectWalk(s, tid, rid).victim != tid
    requires k >= 1
    ensures Chain(AbortWaiter(Publish(s, tid, rid), DetectWalk(s, tid, rid).victim), Some(tid), k) != Some(tid)
  {
    var p := Publish(s, tid, rid);
    var w := DetectWalk(s, tid, rid);
    var q := AbortWaiter(p, w.victim);
    ShrinkSubGraph(q, p);
    var i0 := VictimOnRequesterChain(s, tid, rid);
    forall m: nat | 1 <= m <= |w.visited|
      ensures Chain(p, Some(tid), m) != Some(tid)
    {
      ShortChainMissesRequester(s, tid, rid, m);
    }
    CutOffCycle(q, p, tid, w.victim, i0, |w.visited|, k);
  }

  /** A chain that reaches a thread without a successor is empty from the next step on. */
  lemma SinkCuts(s: State, c: Option<Tid>, j: nat, y: Tid, k: nat)
    requires Next(s, y) == None
    requires Chain(s, c, j) == None || Chain(s, c, j) == Some(y)
    requires j < k
    ensures Chain(s, c, k) == None
  {
    ChainSucc(s, c, j);
    ChainAdd(s, c, j + 1, k - (j + 1));
  }

  /** Aborting a victim other than the requester, and withdrawing its wait edge, leaves
      no cycle: the only cycles the new edge closed pass through the requester. */
  lemma VictimAbortKeepsAcyclic(s: State, tid: Tid, rid: Rid)
    requires StartsKnown(s, tid) && tid in s.status && Acyclic(s)
    requires DetectWalk(s, tid, rid).outcome == ReachedRequester
    requires DetectWalk(s, tid, rid).victim != tid
    ensures Acyclic(AbortWaiter(Publish(s, tid, rid), DetectWalk(s, tid, rid).victim))
  {
    var p := Publish(s, tid, rid);
    var q := AbortWaiter(p, DetectWalk(s, tid, rid).victim);
    ShrinkSubGraph(q, p);
    forall x: Tid, k: nat | k >= 1
      ensures Chain(q, Some(x), k) != Some(x)
    {
      if Chain(q, Some(x), k) == Some(x) {
        if i :| 0 <= i < k && Chain(q, Some(x), i) == Some(tid) {
          Rotate(q, x, tid, i, k);
          RequesterOffCycle(s, tid, rid, k);
        } else {
          SubGraphChain(q, p, Some(x), k);
          forall j: nat | j < k && Chain(p, Some(x), j).Some?
            ensures Next(p, Chain(p, Some(x), j).value) == Next(s, Chain(p, Some(x), j).value)
          {
            ChainSomeBefore(q, Some(x), j, k);
            SubGraphChain(q, p, Some(x), j);
          }
          ChainAgree(p, s, Some(x), k);
        }
      }
    }
  }

  lemma ChainZero(s: State, c: Option<Tid>)
    ensures Chain(s, c, 0) == c
  {
  }

  /** Granting a free resource adds edges only into the new owner, which waits for nothing. */
  lemma GrantKeepsAcyclic(s: State, tid: Tid, rid: Rid)
    requires Acyclic(s) && tid in s.held && rid !in s.owner
    ensures Acyclic(Grant(s, tid, rid))
  {
    var g := Grant(s, tid, rid);
    forall x: Tid, k: nat | k >= 1
      ensures Chain(g, Some(x), k) != Some(x)
    {
      if Chain(g, Some(x), k) == Some(x) {
        if i :| 0 <= i < k && Chain(g, Some(x), i) == Some(tid) {
          Rotate(g, x, tid, i, k);
        } else {
          // a thread waiting for rid would lead to tid within k steps
          forall j: nat | j < k && Chain(g, Some(x), j).Some?
            ensures Next(g, Chain(g, Some(x), j).value) == Next(s, Chain(g, Some(x), j).value)
          {
            ChainSucc(g, Some(x), j);
            ChainZero(g, Some(x));
          }
          ChainAgree(g, s, Some(x), k);
        }
      }
    }
  }

  /** A chain that repeats a cursor without passing `tid` is a cycle, and it stays one
      in any graph that differs only in `tid`'s edge. */
  lemma RepeatIsCycle(p: State, s: State, tid: Tid, c: Option<Tid>, xs: seq<Tid>, i: nat, j: nat)
    requires forall y :: y != tid ==> Next(p, y) == Next(s, y)
    requires forall m :: 0 <= m < |xs| ==> Chain(p, c, m) == Some(xs[m]) && xs[m] != tid
    requires i < j < |xs| && xs[i] == xs[j]
    ensures Chain(s, Some(xs[i]), j - i) == Some(xs[i])
  {
    ChainAdd(p, c, i, j - i);
    forall m: nat | m < j - i && Chain(p, Some(xs[i]), m).Some?
      ensures Next(p, Chain(p, Some(xs[i]), m).value) == Next(s, Chain(p, Some(xs[i]), m).value)
    {
      ChainAdd(p, c, i, m);
    }
    ChainAgree(p, s, Some(xs[i]), j - i);
  }

  /** In a graph without cycles the detector's walk never runs out of fuel. */
  lemma NoDivergence(s: State, tid: Tid, rid: Rid)
    requires StartsKnown(s, tid) && tid in s.status && Acyclic(s)
    ensures DetectWalk(s, tid, rid).outcome != OutOfFuel
  {
    var p := Publish(s, tid, rid);
    var c0 := Get(p.owner, rid);
    var w := DetectWalk(s, tid, rid);
    var n := |p.requested|;
    if w.outcome == OutOfFuel {
      assert StartsKnown(p, tid);
      assert c0.Some? ==> c0.value in p.start;
      WalkFollowsChain(p, tid, c0, tid, n);
      VisitedAreWaiters(p, tid, c0, tid, n);
      assert |p.requested.Keys - {tid}| == n - 1;
      Pigeonhole(w.visited, p.requested.Keys - {tid});
      var i, j :| 0 <= i < j < |w.visited| && w.visited[i] == w.visited[j];
      RepeatIsCycle(p, s, tid, c0, w.visited, i, j);
    }
  }

  /** The lock step keeps the graph acyclic: it either changes nothing or grants a free lock. */
  lemma AcquireKeepsAcyclic(s: State, tid: Tid, rid: Rid, op: Op, ok: bool)
    requires Valid(s) && tid in s.status && Acyclic(s)
    ensures Acyclic(Acquire(s, tid, rid, op, ok).state)
  {
    if !IsAborted(s, tid) && rid !in s.owner {
      GrantKeepsAcyclic(s, tid, rid);
      var g := Grant(s, tid, rid);
      ShrinkSubGraph(RunOperation(g, tid, rid, op, ok).state, g);
      SubGraphAcyclic(RunOperation(g, tid, rid, op, ok).state, g);
    }
  }

  /** The corrected detector keeps the wait-for graph acyclic, and never diverges. */
  lemma DetectKeepsAcyclic(s: State, tid: Tid, rid: Rid)
    requires StartsKnown(s, tid) && tid in s.status && Acyclic(s)
    ensures Acyclic(Detect(s, tid, rid).state)
    ensures !Detect(s, tid, rid).Diverged?
  {
    NoDivergence(s, tid, rid);
    var w := DetectWalk(s, tid, rid);
    var d := Detect(s, tid, rid);
    if d.SelfAborted? {
      ShrinkSubGraph(d.state, s);
      SubGraphAcyclic(d.state, s);
    } else if w.outcome == ReachedRequester {
      VictimAbortKeepsAcyclic(s, tid, rid);
    } else {
      PublishKeepsAcyclic(s, tid, rid);
    }
  }

  /** The acquisition path of `operate` keeps the wait-for graph acyclic, and never hangs. */
  lemma AcquireNewKeepsAcyclic(s: State, tid: Tid, rid: Rid, op: Op, ok: bool)
    requires Valid(s) && tid in s.status && !IsAborted(s, tid) && rid !in s.held[tid] && Acyclic(s)
    ensures Acyclic(AcquireNew(s, tid, rid, op, ok).state)
    ensures AcquireNew(s, tid, rid, op, ok).reply != Hung
  {
    assert StartsKnown(s, tid);
    DetectKeepsAcyclic(s, tid, rid);
    var d := Detect(s, tid, rid);
    if d.Proceed? {
      AcquireKeepsAcyclic(d.state, tid, rid, op, ok);
    }
  }

  /** `operate` keeps the wait-for graph acyclic, and never hangs in the detector. */
  lemma OperateKeepsAcyclic(s: State, tid: Tid, resources: seq<Rid>, rid: Rid, op: Op, ok: bool)
    requires Valid(s) && Acyclic(s)
    ensures Acyclic(Operate(s, tid, resources, rid, op, ok).state)
    ensures Operate(s, tid, resources, rid, op, ok).reply != Hung
  {
    var st := Operate(s, tid, resources, rid, op, ok);
    if IsActive(s, tid) && !IsAborted(s, tid) && rid in resources {
      if rid in s.held[tid] {
        ShrinkSubGraph(st.state, s);
        SubGraphAcyclic(st.state, s);
      } else {
        AcquireNewKeepsAcyclic(s, tid, rid, op, ok);
      }
    }
  }

  /** A wake-up keeps the wait-for graph acyclic. */
  lemma ResumeKeepsAcyclic(s: State, tid: Tid, rid: Rid, op: Op, ok: bool)
    requires Valid(s) && tid in s.status && Acyclic(s)
    ensures Acyclic(Resume(s, tid, rid, op, ok).state)
  {
    AcquireKeepsAcyclic(s, tid, rid, op, ok);
  }

  /** Start, commit and rollback add no wait-for edge. */
  lemma LifecycleKeepsAcyclic(s: State, tid: Tid, now: int)
    requires Acyclic(s)
    ensures Acyclic(Start(s, tid, now).state)
    ensures Acyclic(Commit(s, tid).state)
    ensures Acyclic(Rollback(s, tid).state)
  {
    ShrinkSubGraph(Start(s, tid, now).state, s);
    SubGraphAcyclic(Start(s, tid, now).state, s);
    ShrinkSubGraph(Commit(s, tid).state, s);
    SubGraphAcyclic(Commit(s, tid).state, s);
    ShrinkSubGraph(Rollback(s, tid).state, s);
    SubGraphAcyclic(Rollback(s, tid).state, s);
  }

  /** One API call a thread can make, or the wake-up of a thread blocked in `operate`. */
  datatype ApiCall =
    | CallStart(tid: Tid, now: int)
    | CallOperate(tid: Tid, rid: Rid, op: Op, ok: bool)
    | CallResume(tid: Tid, rid: Rid, op: Op, ok: bool)
    | CallCommit(tid: Tid)
    | CallRollback(tid: Tid)

  /** The transition one call makes. A wake-up only concerns a thread with a live
      transaction; any other stays asleep with nothing changed. */
  function Perform(s: State, resources: seq<Rid>, c: ApiCall): (st: Step)
    requires Valid(s)
    ensures Valid(st.state)
  {
    match c
    case CallStart(tid, now) => Start(s, tid, now)
    case CallOperate(tid, rid, op, ok) => Operate(s, tid, resources, rid, op, ok)
    case CallResume(tid, rid, op, ok) =>
      if tid in s.status then Resume(s, tid, rid, op, ok) else Step(s, Waiting, [])
    case CallCommit(tid) => Commit(s, tid)
    case CallRollback(tid) => Rollback(s, tid)
  }

  /** The state a freshly constructed manager over `resources` reaches after `calls`, in order. */
  function Run(resources: seq<Rid>, calls: seq<ApiCall>): (s: State)
    ensures Valid(s)
    decreases |calls|
  {
    if calls == [] then Init()
    else Perform(Run(resources, calls[..|calls| - 1]), resources, calls[|calls| - 1]).state
  }

  /** Every call keeps the wait-for graph acyclic. */
  lemma PerformKeepsAcyclic(s: State, resources: seq<Rid>, c: ApiCall)
    requires Valid(s) && Acyclic(s)
    ensures Acyclic(Perform(s, resources, c).state)
    ensures Perform(s, resources, c).reply != Hung
  {
    match c
    case CallStart(tid, now) => LifecycleKeepsAcyclic(s, tid, now);
    case CallOperate(tid, rid, op, ok) => OperateKeepsAcyclic(s, tid, resources, rid, op, ok);
    case CallResume(tid, rid, op, ok) =>
      if tid in s.status {
        ResumeKeepsAcyclic(s, tid, rid, op, ok);
      }
    case CallCommit(tid) => LifecycleKeepsAcyclic(s, tid, 0);
    case CallRollback(tid) => LifecycleKeepsAcyclic(s, tid, 0);
  }

  /** In every reachable state the wait-for graph has no cycle. */
  lemma {:induction false} RunAcyclic(resources: seq<Rid>, calls: seq<ApiCall>)
    ensures Acyclic(Run(resources, calls))
    decreases |calls|
  {
    if calls == [] {
      InitAcyclic();
    } else {
      RunAcyclic(resources, calls[..|calls| - 1]);
      PerformKeepsAcyclic(Run(resources, calls[..|calls| - 1]), resources, calls[|calls| - 1]);
    }
  }

  /** No call made in a reachable state hangs in the deadlock detector. */
  lemma NeverHangs(resources: seq<Rid>, calls: seq<ApiCall>, c: ApiCall)
    ensures Perform(Run(resources, calls), resources, c).reply != Hung
  {
    RunAcyclic(resources, calls);
    PerformKeepsAcyclic(Run(resources, calls), resources, c);
  }
}
