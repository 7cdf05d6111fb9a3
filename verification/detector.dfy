/** The deadlock detector: the walk along the wait-for chain that runs, under the
    detector gate, whenever a thread asks for a resource it does not hold yet. */
module Detector {
  import opened TxState

  /** The thread `x` waits for: the owner of the resource `x` has requested, if any. */
  function Next(s: State, x: Tid): (r: Option<Tid>)
    ensures r.Some? <==> x in s.requested && s.requested[x] in s.owner
    ensures r.Some? ==> r.value == s.owner[s.requested[x]]
  {
    if x !in s.requested then None
    else Get(s.owner, s.requested[x])
  }

  /** Every thread the walk can reach has a start time: the requester and every owner. */
  ghost predicate StartsKnown(s: State, tid: Tid) {
    && tid in s.start
    && forall r :: r in s.owner ==> s.owner[r] in s.start
  }

  /** `a` is the newer transaction: later start, or the same start and a larger thread id. */
  predicate Newer(s: State, a: Tid, b: Tid)
    requires a in s.start && b in s.start
  {
    s.start[a] > s.start[b] || (s.start[a] == s.start[b] && a > b)
  }

  /** Newer is a strict total order on threads with a start time. */
  lemma NewerStrictTotal(s: State, a: Tid, b: Tid, c: Tid)
    requires a in s.start && b in s.start && c in s.start
    ensures !Newer(s, a, a)
    ensures a != b ==> (Newer(s, a, b) <==> !Newer(s, b, a))
    ensures Newer(s, a, b) && Newer(s, b, c) ==> Newer(s, a, c)
  {
  }

  /** Why the walk stopped: it came back to the requester (a cycle), it reached a thread
      without a wait edge or a free resource, or it ran out of fuel. */
  datatype WalkEnd = ReachedRequester | NoWaitEdge | OutOfFuel

  /** The walk's verdict: how it ended, the victim it settled on, and the threads it
      passed through (each compared with the victim), in order. */
  datatype WalkResult = WalkResult(outcome: WalkEnd, victim: Tid, visited: seq<Tid>)

  /** The detector loop from `cursor` on, with `victim` as the current candidate.
      The victim is the newest thread among `victim` and the visited ones. */
  function WalkFrom(s: State, tid: Tid, cursor: Option<Tid>, victim: Tid, fuel: nat): (w: WalkResult)
    requires StartsKnown(s, tid) && victim in s.start
    requires cursor.Some? ==> cursor.value in s.start
    ensures |w.visited| <= fuel
    ensures w.outcome == OutOfFuel ==> |w.visited| == fuel
    ensures forall v :: v in w.visited ==> v in s.start && v != tid
    ensures w.victim == victim || w.victim in w.visited
    ensures w.victim in s.start
    ensures w.victim == victim || Newer(s, w.victim, victim)
    ensures forall v :: v in w.visited ==> v == w.victim || Newer(s, w.victim, v)
    decreases fuel
  {
    if cursor.None? then WalkResult(NoWaitEdge, victim, [])
    else if cursor.value == tid then WalkResult(ReachedRequester, victim, [])
    else if fuel == 0 then WalkResult(OutOfFuel, victim, [])
    else
      var c := cursor.value;
      var candidate := if Newer(s, c, victim) then c else victim;
      NewerStrictTotal(s, c, victim, c);
      var next := Next(s, c);
      assert next.Some? ==> next.value in s.start by {
        if next.Some? {
          var r := s.requested[c];
          assert r in s.owner;
        }
      }
      var rest := WalkFrom(s, tid, next, candidate, fuel - 1);
      NewerStrictTotal(s, rest.victim, candidate, victim);
      NewerStrictTotal(s, rest.victim, candidate, c);
      WalkResult(rest.outcome, rest.victim, [c] + rest.visited)
  }

  /** The state right after `tid` publishes its wait edge for `rid`. */
  function Publish(s: State, tid: Tid, rid: Rid): (r: State)
    ensures r.start == s.start && r.status == s.status && r.log == s.log
    ensures r.held == s.held && r.owner == s.owner
    ensures Get(r.requested, tid) == Some(rid)
    ensures forall t :: t != tid ==> Get(r.requested, t) == Get(s.requested, t)
    ensures Valid(s) ==> Valid(r)
  {
    s.(requested := s.requested[tid := rid])
  }

  /** The walk the detector runs when `tid` requests `rid`: from the owner of `rid`,
      with `tid` as the first victim candidate. Its fuel, the number of wait edges,
      is enough for every walk that ends (see WalkTermination). */
  function DetectWalk(s: State, tid: Tid, rid: Rid): WalkResult
    requires StartsKnown(s, tid)
  {
    var p := Publish(s, tid, rid);
    WalkFrom(p, tid, Get(p.owner, rid), tid, |p.requested|)
  }

  /** `ConcurrentHashMap.replace(t, ABORTED)`: marks `t` aborted only if it has a status. */
  function MarkAborted(status: map<Tid, Status>, t: Tid): (r: map<Tid, Status>)
    ensures r.Keys == status.Keys
    ensures t in status ==> r[t] == Aborted
    ensures forall u :: u in status && u != t ==> r[u] == status[u]
  {
    if t in status then status[t := Aborted] else status
  }

  /** Aborting thread `t` under the gate: its status becomes ABORTED (if it has one)
      and its wait edge is withdrawn; nothing else changes. */
  function AbortWaiter(s: State, t: Tid): (r: State)
    ensures r.owner == s.owner && r.held == s.held && r.start == s.start && r.log == s.log
    ensures r.status.Keys == s.status.Keys
    ensures t in s.status ==> r.status[t] == Aborted
    ensures forall u :: u != t ==> Get(r.status, u) == Get(s.status, u)
    ensures t !in r.requested
    ensures forall u :: u != t ==> Get(r.requested, u) == Get(s.requested, u)
    ensures Valid(s) ==> Valid(r)
  {
    s.(requested := s.requested - {t}, status := MarkAborted(s.status, t))
  }

  /** What the detector decided, with the state it leaves behind. */
  datatype Decision =
    | SelfAborted(state: State)   // the requester is the victim: it must not block
    | Proceed(state: State)       // the requester goes on to acquire the resource
    | Diverged(state: State)      // the walk never ends (the gate is never released)

  /** The detector run of `acquireResource` when `tid` requests `rid`, which it does not hold.
      When the victim is another thread, that thread is marked aborted and its wait edge is
      withdrawn with it (the source leaves the edge behind: see AsWritten.DetectAsWritten). */
  function Detect(s: State, tid: Tid, rid: Rid): (d: Decision)
    requires StartsKnown(s, tid) && tid in s.status
    ensures var w := DetectWalk(s, tid, rid);
      && (d.SelfAborted? <==> w.outcome == ReachedRequester && w.victim == tid)
      && (d.Diverged? <==> w.outcome == OutOfFuel)
    // the detector never changes ownership, held sets, start times or logs
    ensures d.state.owner == s.owner && d.state.held == s.held
    ensures d.state.start == s.start && d.state.log == s.log
    ensures d.state.status.Keys == s.status.Keys
    ensures Valid(s) ==> Valid(d.state)
    // self-abort: the requester withdraws its wait edge and only its own status changes
    ensures d.SelfAborted? ==>
      && tid !in d.state.requested
      && (forall t :: t != tid ==> Get(d.state.requested, t) == Get(s.requested, t))
      && tid in d.state.status && d.state.status[tid] == Aborted
      && (forall t :: t != tid ==> Get(d.state.status, t) == Get(s.status, t))
    // otherwise the requester keeps its new wait edge and its status ...
    ensures !d.SelfAborted? ==> Get(d.state.requested, tid) == Some(rid)
    ensures !d.SelfAborted? ==> Get(d.state.status, tid) == Get(s.status, tid)
    // ... and, on a cycle, exactly the victim (another thread) is marked aborted and stops waiting
    ensures d.Proceed? && DetectWalk(s, tid, rid).outcome == ReachedRequester ==>
      var v := DetectWalk(s, tid, rid).victim;
      && v != tid
      && (forall t :: t != v ==> Get(d.state.status, t) == Get(s.status, t))
      && (v in s.status ==> v in d.state.status && d.state.status[v] == Aborted)
      && v !in d.state.requested
      && (forall t :: t != v && t != tid ==> Get(d.state.requested, t) == Get(s.requested, t))
    // with no cycle no status changes and only the requester's wait edge is new
    ensures DetectWalk(s, tid, rid).outcome != ReachedRequester ==>
      d.state.status == s.status && d.state.requested == s.requested[tid := rid]
  {
    var p := Publish(s, tid, rid);
    var w := DetectWalk(s, tid, rid);
    match w.outcome
    case ReachedRequester =>
      if w.victim == tid then SelfAborted(AbortWaiter(p, tid))
      else Proceed(AbortWaiter(p, w.victim))
    case NoWaitEdge => Proceed(p)
    case OutOfFuel => Diverged(p)
  }
}
