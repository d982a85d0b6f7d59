/** The work queue of the demo scope C and its worker's push loop. Queries
    are queued by run(), removed again by cancelled(), and served by the
    scope's worker thread; stop() finishes the queue. */
module ScopeC {
  import opened Variants

  /** Reply proxies are compared by identity, modelled as a number per proxy. */
  type ReplyId = nat

  datatype QueryData = QueryData(query: string, reply: ReplyId)

  /** The position std::find stops at under QueryData's operator==, which
      compares reply proxies only: the first entry with that reply, or the
      end. */
  function FirstMatch(qs: seq<QueryData>, reply: ReplyId): (i: nat)
    ensures i <= |qs|
    ensures i < |qs| ==> qs[i].reply == reply
    ensures forall j :: 0 <= j < i ==> qs[j].reply != reply
    decreases |qs|
  {
    if qs == [] then 0
    else if qs[0].reply == reply then 0
    else 1 + FirstMatch(qs[1..], reply)
  }

  /** The list after remove(reply): the first matching entry erased, if any. */
  function Removed(qs: seq<QueryData>, reply: ReplyId): seq<QueryData>
  {
    var i := FirstMatch(qs, reply);
    if i == |qs| then qs else qs[..i] + qs[i + 1..]
  }

  /** Erasing position i of a list: one fewer entry, those before i kept,
      those after shifted down by one, and the erased one is all that is
      missing. */
  lemma EraseAt<T>(qs: seq<T>, i: nat)
    requires i < |qs|
    ensures var r := qs[..i] + qs[i + 1..];
            && |r| == |qs| - 1
            && r[..i] == qs[..i]
            && r[i..] == qs[i + 1..]
            && multiset(r) + multiset{qs[i]} == multiset(qs)
  {
    assert qs == qs[..i] + [qs[i]] + qs[i + 1..];
  }

  /** remove(reply) leaves the list as it was exactly when no entry carries
      that reply; otherwise it erases one entry, the first with that reply
      whatever its query string, and keeps the others in order. */
  lemma RemovedErasesFirstMatch(qs: seq<QueryData>, reply: ReplyId)
    ensures Removed(qs, reply) == qs <==> (forall e :: e in qs ==> e.reply != reply)
    ensures (exists e :: e in qs && e.reply == reply) ==>
              var i := FirstMatch(qs, reply);
              && |Removed(qs, reply)| == |qs| - 1
              && Removed(qs, reply)[..i] == qs[..i]
              && Removed(qs, reply)[i..] == qs[i + 1..]
              && multiset(Removed(qs, reply)) + multiset{qs[i]} == multiset(qs)
  {
    var i := FirstMatch(qs, reply);
    if i < |qs| {
      EraseAt(qs, i);
      assert qs[i] in qs;
    }
  }

  /** The queue's fields: the list of pending queries and the done flag. */
  datatype QueueState = QueueState(queries: seq<QueryData>, done: bool)

  const NewQueue := QueueState([], false)

  function PutStep(s: QueueState, query: string, reply: ReplyId): QueueState
  {
    s.(queries := s.queries + [QueryData(query, reply)])
  }

  /** get(): the wait ends when the list is non-empty or the queue is done;
      done wins and leaves the list alone, otherwise the head is taken. */
  function GetStep(s: QueueState): (Option<QueryData>, QueueState)
    requires s.queries != [] || s.done
  {
    if s.done then (None, s) else (Some(s.queries[0]), s.(queries := s.queries[1..]))
  }

  function RemoveStep(s: QueueState, reply: ReplyId): QueueState
  {
    s.(queries := Removed(s.queries, reply))
  }

  function FinishStep(s: QueueState): QueueState
  {
    QueueState([], true)
  }

  class Queue {
    var queries: seq<QueryData>
    var done: bool

    function State(): QueueState
      reads this
    {
      QueueState(queries, done)
    }

    constructor ()
      ensures State() == NewQueue
    {
      queries := [];
      done := false;
    }

    /** put: append at the tail. */
    method Put(query: string, reply: ReplyId)
      modifies this
      ensures State() == PutStep(old(State()), query, reply)
      ensures queries == old(queries) + [QueryData(query, reply)] && done == old(done)
    {
      queries := queries + [QueryData(query, reply)];
    }

    /** get: the blocking wait is the precondition; None stands for a false
        return, Some for true with the pair filled in. */
    method Get() returns (r: Option<QueryData>)
      requires queries != [] || done
      modifies this
      ensures (r, State()) == GetStep(old(State()))
      ensures r.None? <==> old(done)
      ensures r.Some? ==> r.value == old(queries)[0] && queries == old(queries)[1..]
      ensures r.None? ==> queries == old(queries)
    {
      if done {
        return None;
      }
      var qd := queries[0];
      queries := queries[1..];
      return Some(qd);
    }

    method Remove(reply: ReplyId)
      modifies this
      ensures State() == RemoveStep(old(State()), reply)
    {
      var i := FirstMatch(queries, reply);
      if i < |queries| {
        queries := queries[..i] + queries[i + 1..];
      }
    }

    method Finish()
      modifies this
      ensures State() == FinishStep(old(State()))
      ensures queries == [] && done
    {
      queries := [];
      done := true;
    }
  }

  // ------------------------------------------------------------------ traces

  datatype QueueOp = PutOp(query: string, reply: ReplyId) | GetOp | RemoveOp(reply: ReplyId) | FinishOp

  predicate Enabled(s: QueueState, op: QueueOp)
  {
    op.GetOp? ==> s.queries != [] || s.done
  }

  /** One operation: what a get returns (None for the others), and the new
      state. */
  function Step(s: QueueState, op: QueueOp): (Option<QueryData>, QueueState)
    requires Enabled(s, op)
  {
    match op
    case PutOp(q, r) => (None, PutStep(s, q, r))
    case GetOp => GetStep(s)
    case RemoveOp(r) => (None, RemoveStep(s, r))
    case FinishOp => (None, FinishStep(s))
  }

  predicate Allowed(s: QueueState, ops: seq<QueueOp>)
    decreases |ops|
  {
    ops == [] || (Enabled(s, ops[0]) && Allowed(Step(s, ops[0]).1, ops[1..]))
  }

  /** The final state, and the pairs handed out by the gets, in order. */
  function Apply(s: QueueState, ops: seq<QueueOp>): (seq<QueryData>, QueueState)
    requires Allowed(s, ops)
    decreases |ops|
  {
    if ops == [] then ([], s)
    else
      var (out, t) := Step(s, ops[0]);
      var (rest, u) := Apply(t, ops[1..]);
      (if out.Some? then [out.value] + rest else rest, u)
  }

  /** The pairs put, in order. */
  function Puts(ops: seq<QueueOp>): seq<QueryData>
    decreases |ops|
  {
    if ops == [] then []
    else (if ops[0].PutOp? then [QueryData(ops[0].query, ops[0].reply)] else []) + Puts(ops[1..])
  }

  predicate PutsAndGets(ops: seq<QueueOp>)
  {
    forall op :: op in ops ==> op.PutOp? || op.GetOp?
  }

  /** One put or get: what it hands out followed by the new list is the old
      list followed by what it puts. */
  lemma FifoStep(s: QueueState, op: QueueOp)
    requires !s.done && Enabled(s, op) && (op.PutOp? || op.GetOp?)
    ensures var (out, t) := Step(s, op);
            && !t.done
            && (if out.Some? then [out.value] else []) + t.queries == s.queries + Puts([op])
  {
    assert Puts([op]) == (if op.PutOp? then [QueryData(op.query, op.reply)] else []) + Puts([]);
    if op.GetOp? {
      assert [s.queries[0]] + s.queries[1..] == s.queries;
    }
  }

  lemma PutsCons(ops: seq<QueueOp>)
    requires ops != []
    ensures Puts(ops) == Puts([ops[0]]) + Puts(ops[1..])
  {
    var head := if ops[0].PutOp? then [QueryData(ops[0].query, ops[0].reply)] else [];
    assert [ops[0]][1..] == [];
    assert Puts([ops[0]]) == head + [];
    assert head + [] == head;
  }

  /** Apply on a non-empty trace: the first step's pair, if any, then the
      rest. */
  lemma ApplyCons(s: QueueState, ops: seq<QueueOp>)
    requires ops != [] && Allowed(s, ops)
    ensures var (out, t) := Step(s, ops[0]);
            Apply(s, ops) == ((if out.Some? then [out.value] else []) + Apply(t, ops[1..]).0, Apply(t, ops[1..]).1)
  {
    assert [] + Apply(Step(s, ops[0]).1, ops[1..]).0 == Apply(Step(s, ops[0]).1, ops[1..]).0;
  }

  lemma PutsAndGetsTail(ops: seq<QueueOp>)
    requires ops != [] && PutsAndGets(ops)
    ensures ops[0].PutOp? || ops[0].GetOp?
    ensures PutsAndGets(ops[1..])
  {
    assert ops[0] in ops;
    forall op | op in ops[1..]
      ensures op.PutOp? || op.GetOp?
    {
      assert op in ops;
    }
  }

  lemma Regroup<T>(outs: seq<T>, rest: seq<T>, tq: seq<T>, uq: seq<T>, sq: seq<T>, p0: seq<T>, ptail: seq<T>)
    requires outs + tq == sq + p0 && rest + uq == tq + ptail
    ensures (outs + rest) + uq == sq + (p0 + ptail)
  {
    calc {
      (outs + rest) + uq;
      outs + (rest + uq);
      outs + (tq + ptail);
      (outs + tq) + ptail;
    }
  }

  /** FIFO: with only puts and gets, the pairs handed out followed by those
      still queued are the pairs queued at the start followed by those put,
      in the same order. */
  lemma {:induction false} FifoOrder(s: QueueState, ops: seq<QueueOp>)
    requires !s.done && Allowed(s, ops) && PutsAndGets(ops)
    ensures Apply(s, ops).0 + Apply(s, ops).1.queries == s.queries + Puts(ops)
    ensures !Apply(s, ops).1.done
    decreases |ops|
  {
    if ops == [] {
      assert Apply(s, ops).0 == [] && Puts(ops) == [];
    } else {
      var (out, t) := Step(s, ops[0]);
      PutsAndGetsTail(ops);
      FifoStep(s, ops[0]);
      FifoOrder(t, ops[1..]);
      PutsCons(ops);
      ApplyCons(s, ops);
      Regroup(if out.Some? then [out.value] else [], Apply(t, ops[1..]).0, t.queries, Apply(t, ops[1..]).1.queries,
              s.queries, Puts([ops[0]]), Puts(ops[1..]));
    }
  }

  /** done is never reset: once the queue is finished every later get returns
      false, and nothing more is handed out. */
  lemma {:induction false} FinishIsFinal(s: QueueState, ops: seq<QueueOp>)
    requires s.done && Allowed(s, ops)
    ensures Apply(s, ops).1.done
    ensures Apply(s, ops).0 == []
    decreases |ops|
  {
    if ops != [] {
      var (out, t) := Step(s, ops[0]);
      assert t.done && out.None?;
      FinishIsFinal(t, ops[1..]);
    }
  }

  // ------------------------------------------------------------- the worker

  /** What the worker pushes as the i-th result of a query. */
  function ResultText(query: string, i: nat): string
    requires i < 10
  {
    "scope-C: result " + [(48 + i) as char] + " for query \"" + query + "\""
  }

  /** The worker's inner loop for one query: up to three pushes, stopping
      after the first that returns false (the query was cancelled).
      `accepted[i]` is what the i-th push returns. */
  method ServeQuery(query: string, accepted: seq<bool>) returns (pushed: seq<string>)
    requires |accepted| == 3
    ensures 1 <= |pushed| <= 3
    ensures forall i :: 0 <= i < |pushed| ==> pushed[i] == ResultText(query, i)
    ensures forall i :: 0 <= i < |pushed| - 1 ==> accepted[i]
    ensures |pushed| < 3 ==> !accepted[|pushed| - 1]
  {
    pushed := [];
    var i := 0;
    while i < 3
      invariant 0 <= i <= 3 && |pushed| == i
      invariant forall j :: 0 <= j < i ==> pushed[j] == ResultText(query, j) && accepted[j]
    {
      pushed := pushed + [ResultText(query, i)];
      if !accepted[i] {
        return;
      }
      i := i + 1;
    }
  }
}
