/** The scope-side state machine of one query (QueryObject).

    Each method runs under the object's mutex and is modelled as one atomic
    step. The provider's callbacks (run, cancel) are not modelled: their
    outcome is a parameter. Everything the object sends or invokes is appended
    to a log, in order. */
module QueryObject {
  import opened Variants

  /** Completion statuses sent with finished(). */
  datatype Status = Finished | Error | Cancelled

  /** One outgoing effect of the query object. */
  datatype Msg =
    | Disconnect                                  // disconnect() from the middleware
    | ProviderRun                                 // the provider's run(reply_proxy)
    | ProviderCancel                              // query_base_->cancel()
    | ProviderActivate                            // act_base_->activate()
    | Push(payload: VariantMap)                   // reply->push(...) on the run argument
    | Completion(status: Status, message: string) // reply_->finished(...), oneway
    | CtrlDestroy                                 // ctrl_->destroy(), oneway

  /** How a provider callback ended: it returned (with a value), threw a
      std::exception with the given what(), or threw something else. */
  datatype Outcome<+T> = Returns(value: T) | Throws(what: string) | ThrowsUnknown

  /** The object's fields: pushable_, whether self_ is held, whether the weak
      reply_proxy_ has been set, cardinality_, and the log of effects. */
  datatype QueryState = QueryState(
    pushable: bool,
    selfHeld: bool,
    replyProxySet: bool,
    cardinality: int,
    log: seq<Msg>)

  const RunErrorPrefix := "QueryBase::run(): "

  /** A newly constructed object. */
  function Created(cardinality: int): QueryState
  {
    QueryState(true, false, false, cardinality, [])
  }

  function SetSelfStep(s: QueryState): QueryState
    requires !s.selfHeld
  {
    s.(selfHeld := true)
  }

  /** run(): after a cancel, drop self and disconnect; otherwise create the
      reply proxy, drop self, disconnect and call the provider; if the
      provider throws, clear pushable and send an Error completion. */
  function RunStep(s: QueryState, outcome: Outcome<()>): QueryState
    requires s.pushable ==> s.selfHeld
  {
    if !s.pushable then s.(selfHeld := false, log := s.log + [Disconnect])
    else
      var s1 := s.(replyProxySet := true, selfHeld := false, log := s.log + [Disconnect, ProviderRun]);
      match outcome
      case Returns(_) => s1
      case Throws(what) =>
        s1.(pushable := false, log := s1.log + [Completion(Error, RunErrorPrefix + what)])
      case ThrowsUnknown =>
        s1.(pushable := false, log := s1.log + [Completion(Error, RunErrorPrefix + "unknown exception")])
  }

  /** cancel(): a no-op once pushable is false; otherwise clear it, forward
      the cancellation to the provider, and send Cancelled if the reply proxy
      is still alive, or regardless when the provider's cancel throws.
      `replyProxyAlive` says whether anything besides the weak pointer still
      holds the reply proxy. */
  function CancelStep(s: QueryState, outcome: Outcome<()>, replyProxyAlive: bool): QueryState
  {
    if !s.pushable then s
    else
      var s1 := s.(pushable := false, log := s.log + [ProviderCancel]);
      match outcome
      case Returns(_) =>
        if s.replyProxySet && replyProxyAlive then s1.(log := s1.log + [Completion(Cancelled, "")]) else s1
      case _ => s1.(log := s1.log + [Completion(Cancelled, "")])
  }

  /** The destructor: ctrl_->destroy(), whose failure is swallowed. */
  function DestroyStep(s: QueryState): QueryState
  {
    s.(log := s.log + [CtrlDestroy])
  }

  class QueryObject {
    var pushable: bool
    var selfHeld: bool
    var replyProxySet: bool
    const cardinality: int
    var log: seq<Msg>

    function State(): QueryState
      reads this
    {
      QueryState(pushable, selfHeld, replyProxySet, cardinality, log)
    }

    /** The four-argument constructor. */
    constructor WithCardinality(cardinality: int)
      ensures State() == Created(cardinality)
    {
      this.cardinality := cardinality;
      pushable := true;
      selfHeld := false;
      replyProxySet := false;
      log := [];
    }

    /** The three-argument constructor: cardinality 0. */
    constructor ()
      ensures State() == Created(0)
    {
      cardinality := 0;
      pushable := true;
      selfHeld := false;
      replyProxySet := false;
      log := [];
    }

    /** set_self: asserts that no self reference is held yet. */
    method SetSelf()
      requires !selfHeld
      modifies this
      ensures State() == SetSelfStep(old(State()))
    {
      selfHeld := true;
    }

    method Run(outcome: Outcome<()>)
      requires pushable ==> selfHeld
      modifies this
      ensures State() == RunStep(old(State()), outcome)
    {
      if !pushable {
        selfHeld := false;
        log := log + [Disconnect];
        return;
      }
      replyProxySet := true;
      selfHeld := false;
      log := log + [Disconnect];
      // lock released; synchronous call into the scope
      log := log + [ProviderRun];
      match outcome {
        case Returns(_) =>
        case Throws(what) =>
          pushable := false;
          log := log + [Completion(Error, RunErrorPrefix + what)];
        case ThrowsUnknown =>
          pushable := false;
          log := log + [Completion(Error, RunErrorPrefix + "unknown exception")];
      }
    }

    method Cancel(outcome: Outcome<()>, replyProxyAlive: bool)
      modifies this
      ensures State() == CancelStep(old(State()), outcome, replyProxyAlive)
    {
      if !pushable {
        return;
      }
      pushable := false;
      // lock released
      log := log + [ProviderCancel];
      if outcome.Returns? {
        if replyProxySet && replyProxyAlive {
          log := log + [Completion(Cancelled, "")];
        }
      } else {
        log := log + [Completion(Cancelled, "")];
      }
    }

    method Pushable() returns (p: bool)
      ensures p == pushable
    {
      p := pushable;
    }

    method Cardinality() returns (c: int)
      ensures c == cardinality
    {
      c := cardinality;
    }

    /** The destructor. */
    method Destroy()
      modifies this
      ensures State() == DestroyStep(old(State()))
    {
      log := log + [CtrlDestroy];
    }
  }

  // ------------------------------------------------------------ single steps

  /** Cancelling twice has the effect of cancelling once. */
  lemma CancelIdempotent(s: QueryState, o1: Outcome<()>, a1: bool, o2: Outcome<()>, a2: bool)
    ensures CancelStep(CancelStep(s, o1, a1), o2, a2) == CancelStep(s, o1, a1)
  {
  }

  /** A cancel that finds pushable already false changes nothing: no provider
      call, no completion. */
  lemma CancelWhenNotPushable(s: QueryState, o: Outcome<()>, alive: bool)
    requires !s.pushable
    ensures CancelStep(s, o, alive) == s
  {
  }

  /** A cancel on a pushable query clears pushable before anything else, calls
      the provider's cancel exactly once, and sends Cancelled exactly when the
      provider's cancel threw or the reply proxy is still alive. */
  lemma CancelSendsCancelled(s: QueryState, o: Outcome<()>, alive: bool)
    requires s.pushable
    ensures var t := CancelStep(s, o, alive);
            && !t.pushable
            && |t.log| > |s.log| && t.log[..|s.log|] == s.log && t.log[|s.log|] == ProviderCancel
            && (Completion(Cancelled, "") in t.log[|s.log|..] <==> (o.Returns? ==> s.replyProxySet && alive))
            && (forall m :: m in t.log[|s.log|..] && m.Completion? ==> m == Completion(Cancelled, ""))
            && ProviderRun !in t.log[|s.log|..]
  {
    var t := CancelStep(s, o, alive);
    if o.Returns? && !(s.replyProxySet && alive) {
      assert t.log[|s.log|..] == [ProviderCancel];
    } else {
      assert t.log[|s.log|..] == [ProviderCancel, Completion(Cancelled, "")];
    }
  }

  /** A run after a cancel never reaches the provider: it only drops self and
      disconnects. */
  lemma RunAfterCancelSkipsProvider(s: QueryState, o: Outcome<()>)
    requires !s.pushable
    ensures RunStep(s, o).log == s.log + [Disconnect]
    ensures !RunStep(s, o).selfHeld && !RunStep(s, o).pushable
  {
  }

  /** A run on a pushable query records the reply proxy, drops self, calls the
      provider exactly once, and sends an Error completion exactly when the
      provider threw, carrying its message; a normal return sends nothing. */
  lemma RunCallsProviderOnce(s: QueryState, o: Outcome<()>)
    requires s.pushable && s.selfHeld
    ensures var t := RunStep(s, o);
            && t.replyProxySet && !t.selfHeld
            && t.log[..|s.log|] == s.log
            && t.log[|s.log|..|s.log| + 2] == [Disconnect, ProviderRun]
            && (o.Returns? <==> t.pushable)
            && (o.Returns? ==> |t.log| == |s.log| + 2)
            && (o.Throws? ==> t.log[|s.log| + 2..] == [Completion(Error, "QueryBase::run(): " + o.what)])
            && (o.ThrowsUnknown? ==> t.log[|s.log| + 2..] == [Completion(Error, "QueryBase::run(): unknown exception")])
  {
    var t := RunStep(s, o);
    var added := t.log[|s.log| + 2..];
    match o {
      case Returns(_) =>
        assert t.log == s.log + [Disconnect, ProviderRun] + [];
      case Throws(what) =>
        assert t.log == s.log + [Disconnect, ProviderRun] + [Completion(Error, RunErrorPrefix + what)];
      case ThrowsUnknown =>
        assert RunErrorPrefix + "unknown exception" == "QueryBase::run(): unknown exception";
        assert t.log == s.log + [Disconnect, ProviderRun] + [Completion(Error, RunErrorPrefix + "unknown exception")];
    }
    SplitLog(s.log, [Disconnect, ProviderRun], added);
  }

  /** The three parts of a log made of three parts. */
  lemma SplitLog(a: seq<Msg>, b: seq<Msg>, c: seq<Msg>)
    ensures var l := a + b + c;
            && |l| == |a| + |b| + |c|
            && l[..|a|] == a && l[|a|..|a| + |b|] == b && l[|a| + |b|..] == c
  {
  }

  // ------------------------------------------------------------------ traces

  datatype Op =
    | SetSelfOp
    | RunOp(runOutcome: Outcome<()>)
    | CancelOp(cancelOutcome: Outcome<()>, replyProxyAlive: bool)
    | DestroyOp

  /** What each method asserts of its caller; nothing follows the destructor. */
  predicate Enabled(s: QueryState, op: Op)
  {
    && CtrlDestroy !in s.log
    && match op
       case SetSelfOp => !s.selfHeld
       case RunOp(_) => s.pushable ==> s.selfHeld
       case _ => true
  }

  function Step(s: QueryState, op: Op): QueryState
    requires Enabled(s, op)
  {
    match op
    case SetSelfOp => SetSelfStep(s)
    case RunOp(o) => RunStep(s, o)
    case CancelOp(o, alive) => CancelStep(s, o, alive)
    case DestroyOp => DestroyStep(s)
  }

  predicate Allowed(s: QueryState, ops: seq<Op>)
    decreases |ops|
  {
    ops == [] || (Enabled(s, ops[0]) && Allowed(Step(s, ops[0]), ops[1..]))
  }

  function Apply(s: QueryState, ops: seq<Op>): QueryState
    requires Allowed(s, ops)
    decreases |ops|
  {
    if ops == [] then s else Apply(Step(s, ops[0]), ops[1..])
  }

  /** pushable only ever moves from true to false, the cardinality never
      changes, and the log only grows. */
  lemma {:induction false} PushableNeverRises(s: QueryState, ops: seq<Op>)
    requires Allowed(s, ops)
    ensures !s.pushable ==> !Apply(s, ops).pushable
    ensures Apply(s, ops).cardinality == s.cardinality
    ensures |Apply(s, ops).log| >= |s.log| && Apply(s, ops).log[..|s.log|] == s.log
    decreases |ops|
  {
    if ops != [] {
      var t := Step(s, ops[0]);
      StepMonotone(s, ops[0]);
      PushableNeverRises(t, ops[1..]);
      PrefixOfPrefix(s.log, t.log, Apply(t, ops[1..]).log);
    }
  }

  /** One step: pushable does not rise, the cardinality stays, the log grows. */
  lemma StepMonotone(s: QueryState, op: Op)
    requires Enabled(s, op)
    ensures var t := Step(s, op);
            && (!s.pushable ==> !t.pushable)
            && t.cardinality == s.cardinality
            && |t.log| >= |s.log| && t.log[..|s.log|] == s.log
  {
  }

  lemma PrefixOfPrefix(a: seq<Msg>, b: seq<Msg>, c: seq<Msg>)
    requires |b| >= |a| && b[..|a|] == a
    requires |c| >= |b| && c[..|b|] == b
    ensures |c| >= |a| && c[..|a|] == a
  {
    assert c[..|a|] == c[..|b|][..|a|];
  }

  /** The number of completions in a log. */
  function Completions(log: seq<Msg>): nat
  {
    if log == [] then 0
    else Completions(log[..|log| - 1]) + (if log[|log| - 1].Completion? then 1 else 0)
  }

  lemma {:induction false} CompletionsAppend(a: seq<Msg>, b: seq<Msg>)
    ensures Completions(a + b) == Completions(a) + Completions(b)
    decreases |b|
  {
    if b == [] {
      assert a + b == a;
    } else {
      var b' := b[..|b| - 1];
      assert (a + b)[..|a + b| - 1] == a + b';
      assert (a + b)[|a + b| - 1] == b[|b| - 1];
      CompletionsAppend(a, b');
      assert Completions(a + b) == Completions(a + b') + (if b[|b| - 1].Completion? then 1 else 0);
    }
  }

  lemma CompletionsSingle(m: Msg)
    ensures Completions([m]) == if m.Completion? then 1 else 0
  {
    assert [m][..0] == [];
  }

  /** What holds of every state reachable from a new object by whole steps. */
  ghost predicate Reachable(s: QueryState)
  {
    && (ProviderCancel in s.log ==> !s.pushable)
    && (Completions(s.log) > 0 ==> !s.pushable)
    && Completions(s.log) <= 1
    && (forall i, j :: 0 <= i < j < |s.log| && s.log[i] == ProviderCancel ==> s.log[j] != ProviderRun)
  }

  /** Appending `added` keeps Reachable when a run is only added while the
      query is pushable and without a cancel after it, and completions and
      cancels are only added while pushable, leaving it unpushable. */
  lemma AppendKeepsReachable(s: QueryState, t: QueryState, added: seq<Msg>)
    requires Reachable(s) && t.log == s.log + added
    requires t.pushable ==> s.pushable
    requires ProviderRun in added ==> s.pushable && |added| >= 2 && added[..2] == [Disconnect, ProviderRun] && ProviderCancel !in added
    requires ProviderCancel in added ==> s.pushable && !t.pushable
    requires Completions(added) <= 1
    requires Completions(added) > 0 ==> s.pushable && !t.pushable
    ensures Reachable(t)
  {
    CompletionsAppend(s.log, added);
    if ProviderRun in added {
      assert ProviderCancel !in s.log + added;
    } else {
      forall k | |s.log| <= k < |t.log|
        ensures t.log[k] != ProviderRun
      {
        assert t.log[k] == added[k - |s.log|];
      }
    }
  }

  lemma RunKeepsReachable(s: QueryState, o: Outcome<()>)
    requires Reachable(s) && Enabled(s, RunOp(o))
    ensures Reachable(Step(s, RunOp(o)))
  {
    var t := Step(s, RunOp(o));
    if !s.pushable {
      AppendKeepsReachable(s, t, [Disconnect]);
    } else if o.Returns? {
      AppendKeepsReachable(s, t, [Disconnect, ProviderRun]);
    } else {
      var added := [Disconnect, ProviderRun, t.log[|t.log| - 1]];
      assert t.log == s.log + added;
      assert Completions(added) == 1 by {
        assert added[2].Completion? && added[..2] == [Disconnect, ProviderRun];
        assert added[..2][..1] == [Disconnect];
        assert added[..2][..1][..0] == [];
      }
      AppendKeepsReachable(s, t, added);
    }
  }

  lemma CancelKeepsReachable(s: QueryState, o: Outcome<()>, alive: bool)
    requires Reachable(s) && Enabled(s, CancelOp(o, alive))
    ensures Reachable(Step(s, CancelOp(o, alive)))
  {
    var t := Step(s, CancelOp(o, alive));
    if !s.pushable {
      assert t.log == s.log + [];
      AppendKeepsReachable(s, t, []);
    } else if t.log == s.log + [ProviderCancel] {
      AppendKeepsReachable(s, t, [ProviderCancel]);
    } else {
      var added := [ProviderCancel, Completion(Cancelled, "")];
      assert t.log == s.log + added;
      assert Completions(added) == 1 by {
        assert added[..1] == [ProviderCancel];
        assert added[..1][..0] == [];
      }
      AppendKeepsReachable(s, t, added);
    }
  }

  lemma StepKeepsReachable(s: QueryState, op: Op)
    requires Reachable(s) && Enabled(s, op)
    ensures Reachable(Step(s, op))
  {
    var t := Step(s, op);
    match op {
      case SetSelfOp =>
        assert t.log == s.log + [];
        AppendKeepsReachable(s, t, []);
      case DestroyOp =>
        AppendKeepsReachable(s, t, [CtrlDestroy]);
      case RunOp(o) =>
        RunKeepsReachable(s, o);
      case CancelOp(o, alive) =>
        CancelKeepsReachable(s, o, alive);
    }
  }

  /** Over any sequence of whole steps from a new object: the provider's run is
      never called after its cancel, at most one completion is sent, and any
      completion or cancel leaves the query unpushable. This rests on each
      method being one atomic step; run's exception path does not re-check
      pushable, so with the provider's run overlapping a cancel the Error
      completion can follow the Cancelled one. */
  lemma {:induction false} TraceKeepsReachable(s: QueryState, ops: seq<Op>)
    requires Reachable(s) && Allowed(s, ops)
    ensures Reachable(Apply(s, ops))
    decreases |ops|
  {
    if ops != [] {
      StepKeepsReachable(s, ops[0]);
      TraceKeepsReachable(Step(s, ops[0]), ops[1..]);
    }
  }

  lemma NewObjectReachable(cardinality: int)
    ensures Reachable(Created(cardinality))
  {
  }

  /** One step on a query that is no longer pushable sends at most a
      disconnect or the destroy. */
  lemma UnpushableStep(s: QueryState, op: Op)
    requires !s.pushable && Enabled(s, op)
    ensures var t := Step(s, op);
            && !t.pushable
            && |t.log| >= |s.log| && t.log[..|s.log|] == s.log
            && forall m :: m in t.log[|s.log|..] ==> m == Disconnect || m == CtrlDestroy
  {
    var t := Step(s, op);
    assert t.log == s.log || t.log == s.log + [Disconnect] || t.log == s.log + [CtrlDestroy];
  }

  /** Any sequence of calls on a query that is no longer pushable sends only
      disconnects and the destroy: no provider call and no completion. */
  lemma {:induction false} UnpushableStaysSilent(s: QueryState, ops: seq<Op>)
    requires !s.pushable && Allowed(s, ops)
    ensures var t := Apply(s, ops);
            && !t.pushable
            && |t.log| >= |s.log| && t.log[..|s.log|] == s.log
            && forall m :: m in t.log[|s.log|..] ==> m == Disconnect || m == CtrlDestroy
    decreases |ops|
  {
    if ops != [] {
      var u := Step(s, ops[0]);
      UnpushableStep(s, ops[0]);
      UnpushableStaysSilent(u, ops[1..]);
      var t := Apply(u, ops[1..]);
      PrefixOfPrefix(s.log, u.log, t.log);
      assert t.log[|s.log|..] == u.log[|s.log|..] + t.log[|u.log|..];
    }
  }

  /** A query cancelled before run is dispatched, with a provider cancel that
      returns: the reply proxy does not exist yet, so no Cancelled goes out, and
      whatever is called afterwards, the provider's run is never reached and no
      completion is sent. */
  lemma CancelBeforeRunIsSilent(s: QueryState, alive: bool, ops: seq<Op>)
    requires s.pushable && !s.replyProxySet
    requires Allowed(CancelStep(s, Returns(()), alive), ops)
    ensures var t := Apply(CancelStep(s, Returns(()), alive), ops);
            && |t.log| > |s.log| && t.log[..|s.log|] == s.log && t.log[|s.log|] == ProviderCancel
            && ProviderRun !in t.log[|s.log|..]
            && forall m :: m in t.log[|s.log|..] ==> !m.Completion?
  {
    var c := CancelStep(s, Returns(()), alive);
    assert c.log == s.log + [ProviderCancel];
    UnpushableStaysSilent(c, ops);
    var t := Apply(c, ops);
    PrefixOfPrefix(s.log, c.log, t.log);
    assert t.log[|s.log|..] == [ProviderCancel] + t.log[|c.log|..];
  }

}
