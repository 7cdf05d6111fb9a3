/** When the detector's `while` loop ends. The loop follows the wait-for chain
    `owner(rid)`, then the owner of what that thread waits for, and so on; it stops at
    the requester or at a thread with no wait edge (or whose resource is free).
    Here the chain is defined on its own, and the fuel the detector gives its walk is
    shown to be enough: the walk runs out of fuel exactly when the loop never ends. */
module WalkTermination {
  import opened TxState
  import opened Detector

  /** The thread the loop's cursor holds after `k` advances from `c`. */
  function Chain(s: State, c: Option<Tid>, k: nat): Option<Tid>
    decreases k
  {
    if k == 0 || c.None? then c
    else Chain(s, Next(s, c.value), k - 1)
  }

  /** The loop stops at a cursor that is empty or is the requester. */
  predicate Stops(tid: Tid, c: Option<Tid>) {
    c.None? || c.value == tid
  }

  /** Advancing `i + m` times is advancing `i` times, then `m` times. */
  lemma {:induction false} ChainAdd(s: State, c: Option<Tid>, i: nat, m: nat)
    ensures Chain(s, c, i + m) == Chain(s, Chain(s, c, i), m)
    decreases i
  {
    if i == 0 || c.None? {
    } else {
      ChainAdd(s, Next(s, c.value), i - 1, m);
    }
  }

  /** One more advance is one more `Next`. */
  lemma ChainSucc(s: State, c: Option<Tid>, k: nat)
    ensures Chain(s, c, k + 1) == (if Chain(s, c, k).None? then None else Next(s, Chain(s, c, k).value))
  {
    ChainAdd(s, c, k, 1);
  }

  /** One step of the walk: a cursor that is not the requester is visited, and the
      walk goes on from its successor. */
  lemma WalkStep(s: State, tid: Tid, x: Tid, v: Tid, fuel: nat)
    requires StartsKnown(s, tid) && v in s.start && x in s.start
    requires x != tid && fuel > 0
    ensures Next(s, x).Some? ==> Next(s, x).value in s.start
    ensures var cand := if Newer(s, x, v) then x else v;
      var w := WalkFrom(s, tid, Some(x), v, fuel);
      var rest := WalkFrom(s, tid, Next(s, x), cand, fuel - 1);
      w.outcome == rest.outcome && w.visited == [x] + rest.visited
  {
    if Next(s, x).Some? {
      var r := s.requested[x];
      assert r in s.owner;
      assert s.owner[r] in s.start;
    }
    var cand := if Newer(s, x, v) then x else v;
    var rest := WalkFrom(s, tid, Next(s, x), cand, fuel - 1);
    assert WalkFrom(s, tid, Some(x), v, fuel) == WalkResult(rest.outcome, rest.victim, [x] + rest.visited);
  }

  /** A chain that lists `vs` from the successor of `x` lists `[x] + vs` from `x`. */
  lemma ChainPrepend(s: State, x: Tid, vs: seq<Tid>)
    requires forall i :: 0 <= i < |vs| ==> Chain(s, Next(s, x), i) == Some(vs[i])
    ensures forall i :: 0 <= i < |vs| + 1 ==> Chain(s, Some(x), i) == Some(([x] + vs)[i])
  {
    forall i | 0 <= i < |vs| + 1
      ensures Chain(s, Some(x), i) == Some(([x] + vs)[i])
    {
      if i > 0 {
        assert ([x] + vs)[i] == vs[i - 1];
        assert Chain(s, Some(x), i) == Chain(s, Next(s, x), i - 1);
      }
    }
  }

  /** The walk visits exactly the chain's cursors, and stops where the loop stops. */
  lemma {:induction false} WalkFollowsChain(s: State, tid: Tid, c: Option<Tid>, v: Tid, fuel: nat)
    requires StartsKnown(s, tid) && v in s.start
    requires c.Some? ==> c.value in s.start
    ensures var w := WalkFrom(s, tid, c, v, fuel);
      && (forall i :: 0 <= i < |w.visited| ==> Chain(s, c, i) == Some(w.visited[i]))
      && (w.outcome == NoWaitEdge ==> Chain(s, c, |w.visited|) == None)
      && (w.outcome == ReachedRequester ==> Chain(s, c, |w.visited|) == Some(tid))
      && (w.outcome == OutOfFuel ==> !Stops(tid, Chain(s, c, |w.visited|)))
    decreases fuel
  {
    var w := WalkFrom(s, tid, c, v, fuel);
    if c.None? || c.value == tid || fuel == 0 {
    } else {
      var x := c.value;
      var candidate := if Newer(s, x, v) then x else v;
      var next := Next(s, x);
      WalkStep(s, tid, x, v, fuel);
      WalkFollowsChain(s, tid, next, candidate, fuel - 1);
      var rest := WalkFrom(s, tid, next, candidate, fuel - 1);
      ChainPrepend(s, x, rest.visited);
      assert Chain(s, c, |w.visited|) == Chain(s, next, |rest.visited|);
    }
  }

  /** A sequence longer than the set holding its elements repeats an element. */
  lemma {:induction false} Pigeonhole(xs: seq<Tid>, S: set<Tid>)
    requires forall i :: 0 <= i < |xs| ==> xs[i] in S
    requires |S| < |xs|
    ensures exists i, j :: 0 <= i < j < |xs| && xs[i] == xs[j]
    decreases |xs|
  {
    var n := |xs| - 1;
    var x := xs[n];
    if i :| 0 <= i < n && xs[i] == x {
      assert 0 <= i < n < |xs| && xs[i] == xs[n];
    } else {
      var prefix := xs[..n];
      forall i | 0 <= i < |prefix|
        ensures prefix[i] in S - {x}
      {
        assert prefix[i] == xs[i];
      }
      assert |S - {x}| == |S| - 1;
      Pigeonhole(prefix, S - {x});
      var i, j :| 0 <= i < j < |prefix| && prefix[i] == prefix[j];
      assert xs[i] == xs[j];
    }
  }

  /** Once the chain has come back to a cursor it held before, every later cursor is
      one it held earlier: it goes round the same loop forever. */
  lemma {:induction false} ChainRepeats(s: State, c: Option<Tid>, i: nat, j: nat, k: nat)
    requires i < j <= k
    requires Chain(s, c, i) == Chain(s, c, j)
    ensures Chain(s, c, k) == Chain(s, c, k - (j - i))
  {
    var m := k - j;
    ChainAdd(s, c, j, m);
    ChainAdd(s, c, i, m);
  }

  /** Every visited thread, except possibly the last, has a wait edge: the chain went on. */
  lemma VisitedAreWaiters(s: State, tid: Tid, c: Option<Tid>, v: Tid, fuel: nat)
    requires StartsKnown(s, tid) && v in s.start
    requires c.Some? ==> c.value in s.start
    requires WalkFrom(s, tid, c, v, fuel).outcome == OutOfFuel
    ensures var w := WalkFrom(s, tid, c, v, fuel);
      forall i :: 0 <= i < |w.visited| ==> w.visited[i] in s.requested.Keys - {tid}
  {
    var w := WalkFrom(s, tid, c, v, fuel);
    WalkFollowsChain(s, tid, c, v, fuel);
    forall i | 0 <= i < |w.visited|
      ensures w.visited[i] in s.requested.Keys - {tid}
    {
      ChainSucc(s, c, i);
      assert Chain(s, c, i + 1).Some?;
      assert w.visited[i] in w.visited;
    }
  }

  /** The loop never stops after a walk with fuel `|requested|` ran out of fuel:
      every cursor from then on exists and differs from the requester. */
  lemma {:induction false} OutOfFuelNeverStops(s: State, tid: Tid, c: Option<Tid>, v: Tid, k: nat)
    requires StartsKnown(s, tid) && v in s.start
    requires c.Some? ==> c.value in s.start
    requires tid in s.requested
    requires WalkFrom(s, tid, c, v, |s.requested|).outcome == OutOfFuel
    ensures !Stops(tid, Chain(s, c, k))
    decreases k
  {
    var n := |s.requested|;
    var w := WalkFrom(s, tid, c, v, n);
    WalkFollowsChain(s, tid, c, v, n);
    if k < n {
      assert Chain(s, c, k) == Some(w.visited[k]);
      assert w.visited[k] in w.visited;
    } else if k > n {
      VisitedAreWaiters(s, tid, c, v, n);
      assert |s.requested.Keys - {tid}| == n - 1;
      Pigeonhole(w.visited, s.requested.Keys - {tid});
      var i, j :| 0 <= i < j < |w.visited| && w.visited[i] == w.visited[j];
      ChainRepeats(s, c, i, j, k);
      OutOfFuelNeverStops(s, tid, c, v, k - (j - i));
    }
  }

  /** The detector's walk diverges exactly when the source's loop never terminates;
      otherwise the loop stops after `|visited|` advances, at the requester (a cycle)
      or at an empty cursor, never earlier. */
  lemma DetectTerminatesIff(s: State, tid: Tid, rid: Rid)
    requires StartsKnown(s, tid) && tid in s.status
    ensures var p := Publish(s, tid, rid);
      var c := Get(p.owner, rid);
      var w := DetectWalk(s, tid, rid);
      && (Detect(s, tid, rid).Diverged? <==> forall k: nat :: !Stops(tid, Chain(p, c, k)))
      && (forall i :: 0 <= i < |w.visited| ==> !Stops(tid, Chain(p, c, i)))
      && (w.outcome == ReachedRequester ==> Chain(p, c, |w.visited|) == Some(tid))
      && (w.outcome == NoWaitEdge ==> Chain(p, c, |w.visited|) == None)
  {
    var p := Publish(s, tid, rid);
    var c := Get(p.owner, rid);
    var w := DetectWalk(s, tid, rid);
    assert StartsKnown(p, tid);
    assert c.Some? ==> c.value in p.start;
    WalkFollowsChain(p, tid, c, tid, |p.requested|);
    forall i | 0 <= i < |w.visited|
      ensures !Stops(tid, Chain(p, c, i))
    {
      assert w.visited[i] in w.visited;
    }
    if Detect(s, tid, rid).Diverged? {
      forall k: nat
        ensures !Stops(tid, Chain(p, c, k))
      {
        OutOfFuelNeverStops(p, tid, c, tid, k);
      }
    }
  }
}
