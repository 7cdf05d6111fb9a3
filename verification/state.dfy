/** The transaction manager's global state: one immutable record of maps,
    updated by each API call in a single atomic step. */
module TxState {

  /** A thread id (a Java `long`); it is also the transaction id. */
  type Tid = int
  /** A resource id, compared by plain equality. */
  type Rid = int
  /** An opaque resource operation; its `execute` and `undo` are external. */
  type Op = int

  datatype Option<+T> = None | Some(value: T)

  /** The two states a live transaction record can be in. */
  datatype Status = Ongoing | Aborted

  /** One undo-log entry: the resource an operation was applied to, and the operation. */
  datatype Entry = Entry(rid: Rid, op: Op)

  /** The error kinds the API raises. */
  datatype Error =
    | AnotherTransactionActive
    | NoActiveTransaction
    | UnknownResourceId
    | ActiveTransactionAborted
    | ResourceOperationError
    | Interrupted

  /** A call the manager makes into a resource operation. */
  datatype Call = Execute(rid: Rid, op: Op) | Undo(rid: Rid, op: Op)

  /** How an API call ends: it returns, raises, blocks on a busy resource lock
      (to be woken up later), or never returns because the wait-for walk loops. */
  datatype Reply = Done | Raised(err: Error) | Waiting | Hung

  /** The manager's maps:
      start     tid -> start time of its transaction
      status    tid -> ONGOING / ABORTED
      log       tid -> undo log, oldest entry first
      held      tid -> resources acquired in its transaction
      owner     rid -> thread currently owning the resource
      requested tid -> resource the thread waits for (its wait edge) */
  datatype State = State(
    start: map<Tid, int>,
    status: map<Tid, Status>,
    log: map<Tid, seq<Entry>>,
    held: map<Tid, set<Rid>>,
    owner: map<Rid, Tid>,
    requested: map<Tid, Rid>
  )

  /** One atomic transition: the new state, the reply, and the calls made on resources. */
  datatype Step = Step(state: State, reply: Reply, calls: seq<Call>)

  /** The state of a freshly constructed manager: every map empty. */
  function Init(): State {
    State(map[], map[], map[], map[], map[], map[])
  }

  function Get<K, V>(m: map<K, V>, k: K): Option<V> {
    if k in m then Some(m[k]) else None
  }

  /** The invariant every reachable state keeps: a live record has a start time,
      a status and a held set; and held sets agree exactly with resource ownership
      (a resource is in `held[t]` iff `t` owns it). A log left behind by a finished
      transaction is empty. */
  ghost predicate Valid(s: State) {
    && s.start.Keys == s.status.Keys
    && s.held.Keys == s.status.Keys
    && s.status.Keys <= s.log.Keys
    && (forall t :: t in s.log && t !in s.status ==> s.log[t] == [])
    && (forall r :: r in s.owner ==> s.owner[r] in s.held && r in s.held[s.owner[r]])
    && (forall t, r :: t in s.held && r in s.held[t] ==> r in s.owner && s.owner[r] == t)
  }

  lemma InitValid()
    ensures Valid(Init())
  {
  }
}
