/** What the undo log is for. Resources are given integer values, and `execute` and
    `undo` act on them as two functions; when `undo` inverts `execute`, undoing a log
    newest first (as rollback does) restores the values the log's operations started from. */
module UndoReplay {
  import opened TxState
  import opened Manager

  /** The execute calls that put the log's entries there, oldest first. */
  function ExecuteCalls(log: seq<Entry>): (calls: seq<Call>)
    ensures |calls| == |log|
    ensures forall i :: 0 <= i < |log| ==> calls[i] == Execute(log[i].rid, log[i].op)
  {
    seq(|log|, i requires 0 <= i < |log| => Execute(log[i].rid, log[i].op))
  }

  /** The effect of one call on the resource values; a resource without a value is untouched. */
  function ApplyOne(c: Call, vals: map<Rid, int>, exec: (Op, int) -> int, undo: (Op, int) -> int): map<Rid, int> {
    if c.rid !in vals then vals
    else if c.Execute? then vals[c.rid := exec(c.op, vals[c.rid])]
    else vals[c.rid := undo(c.op, vals[c.rid])]
  }

  /** The effect of a sequence of calls, first call first. */
  function Apply(calls: seq<Call>, vals: map<Rid, int>, exec: (Op, int) -> int, undo: (Op, int) -> int): map<Rid, int>
    decreases |calls|
  {
    if calls == [] then vals
    else Apply(calls[1..], ApplyOne(calls[0], vals, exec, undo), exec, undo)
  }

  lemma {:induction false} ApplyConcat(a: seq<Call>, b: seq<Call>, vals: map<Rid, int>, exec: (Op, int) -> int, undo: (Op, int) -> int)
    ensures Apply(a + b, vals, exec, undo) == Apply(b, Apply(a, vals, exec, undo), exec, undo)
    decreases |a|
  {
    if a == [] {
      assert a + b == b;
    } else {
      assert (a + b)[1..] == a[1..] + b;
      ApplyConcat(a[1..], b, ApplyOne(a[0], vals, exec, undo), exec, undo);
    }
  }

  /** Undoing a log newest first cancels executing it oldest first. */
  lemma {:induction false} UndoCancelsExecute(log: seq<Entry>, vals: map<Rid, int>, exec: (Op, int) -> int, undo: (Op, int) -> int)
    requires forall o, x :: undo(o, exec(o, x)) == x
    ensures Apply(UndoCalls(log), Apply(ExecuteCalls(log), vals, exec, undo), exec, undo) == vals
    decreases |log|
  {
    if log != [] {
      var n := |log| - 1;
      var p := log[..n];
      var e := log[n];
      assert ExecuteCalls(log) == ExecuteCalls(p) + [Execute(e.rid, e.op)];
      assert UndoCalls(log) == [Undo(e.rid, e.op)] + UndoCalls(p);
      var w := Apply(ExecuteCalls(p), vals, exec, undo);
      ApplyConcat(ExecuteCalls(p), [Execute(e.rid, e.op)], vals, exec, undo);
      var w' := Apply([Execute(e.rid, e.op)], w, exec, undo);
      assert w' == ApplyOne(Execute(e.rid, e.op), w, exec, undo);
      ApplyConcat([Undo(e.rid, e.op)], UndoCalls(p), w', exec, undo);
      assert Apply([Undo(e.rid, e.op)], w', exec, undo) == ApplyOne(Undo(e.rid, e.op), w', exec, undo);
      if e.rid in w {
        assert undo(e.op, exec(e.op, w[e.rid])) == w[e.rid];
        assert ApplyOne(Undo(e.rid, e.op), w', exec, undo) == w[e.rid := w[e.rid]] == w;
      }
      UndoCancelsExecute(p, vals, exec, undo);
    }
  }

  /** Appending an entry to a log appends its execute call. */
  lemma ExecuteCallsSnoc(log: seq<Entry>, e: Entry)
    ensures ExecuteCalls(log + [e]) == ExecuteCalls(log) + [Execute(e.rid, e.op)]
  {
  }

  /** A successful operate adds exactly its own execute call to the calls the log records. */
  lemma OperateExtendsLog(s: State, tid: Tid, resources: seq<Rid>, rid: Rid, op: Op, ok: bool)
    requires Valid(s)
    requires Operate(s, tid, resources, rid, op, ok).reply == Done
    ensures var st := Operate(s, tid, resources, rid, op, ok);
      && tid in s.log && tid in st.state.log
      && ExecuteCalls(st.state.log[tid]) == ExecuteCalls(s.log[tid]) + st.calls
  {
    assert IsActive(s, tid);
    ExecuteCallsSnoc(s.log[tid], Entry(rid, op));
  }

  /** Rollback restores every resource to the value it had before the transaction's
      logged operations ran, when `undo` inverts `execute`. */
  lemma RollbackRestores(s: State, tid: Tid, vals: map<Rid, int>, exec: (Op, int) -> int, undo: (Op, int) -> int)
    requires Valid(s) && IsActive(s, tid)
    requires forall o, x :: undo(o, exec(o, x)) == x
    ensures var after := Apply(ExecuteCalls(s.log[tid]), vals, exec, undo);
      Apply(Rollback(s, tid).calls, after, exec, undo) == vals
  {
    UndoCancelsExecute(s.log[tid], vals, exec, undo);
  }
}
