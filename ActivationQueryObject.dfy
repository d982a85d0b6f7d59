/** The activation flavour of a query object: a one-shot run that calls the
    provider's activate() and reports its response. It shares the query
    object's state (it is a QueryObject in the source); its run replaces the
    search run and never consults pushable. */
module ActivationQueryObject {
  import opened Variants
  import opened QueryObject

  /** run() of an activation: drop self, disconnect, call activate(); on a
      normal return push the serialised response on the run argument and send
      Finished, otherwise send Error with the exception's text. */
  function ActivationRunStep(s: QueryState, outcome: Outcome<VariantMap>): QueryState
    requires s.selfHeld
  {
    var s1 := s.(selfHeld := false, log := s.log + [Disconnect, ProviderActivate]);
    match outcome
    case Returns(response) => s1.(log := s1.log + [Push(response), Completion(Finished, "")])
    case Throws(what) => s1.(log := s1.log + [Completion(Error, what)])
    case ThrowsUnknown => s1.(log := s1.log + [Completion(Error, "unknown exception")])
  }

  class ActivationQueryObject {
    /** The QueryObject part of this object. */
    const base: QueryObject

    constructor ()
      ensures fresh(base) && base.State() == Created(0)
    {
      base := new QueryObject();
    }

    /** run(): noexcept; every outcome of activate() ends in a completion. */
    method Run(outcome: Outcome<VariantMap>)
      requires base.selfHeld
      modifies base
      ensures base.State() == ActivationRunStep(old(base.State()), outcome)
    {
      base.selfHeld := false;
      base.log := base.log + [Disconnect];
      base.log := base.log + [ProviderActivate];
      match outcome {
        case Returns(response) =>
          base.log := base.log + [Push(response)];
          base.log := base.log + [Completion(Finished, "")];
        case Throws(what) =>
          base.log := base.log + [Completion(Error, what)];
        case ThrowsUnknown =>
          base.log := base.log + [Completion(Error, "unknown exception")];
      }
    }

    /** The destructor adds nothing; the QueryObject destructor sends destroy. */
    method Destroy()
      modifies base
      ensures base.State() == DestroyStep(old(base.State()))
    {
      base.Destroy();
    }
  }

  /** Activation ignores pushable: whatever its value, the provider's activate
      is called once, and pushable, the reply proxy and the cardinality are
      left as they were. */
  lemma ActivationIgnoresPushable(s: QueryState, outcome: Outcome<VariantMap>)
    requires s.selfHeld
    ensures var t := ActivationRunStep(s, outcome);
            && !t.selfHeld
            && t.pushable == s.pushable && t.replyProxySet == s.replyProxySet && t.cardinality == s.cardinality
            && |t.log| >= |s.log| + 2 && t.log[..|s.log|] == s.log
            && t.log[|s.log|..|s.log| + 2] == [Disconnect, ProviderActivate]
  {
  }

  /** Exactly one completion is sent by an activation run, and a push happens
      exactly when activate() returned: that one push carries its response and
      comes before a Finished completion; a throw sends Error with its text. */
  lemma ActivationReportsOutcome(s: QueryState, outcome: Outcome<VariantMap>)
    requires s.selfHeld
    ensures var added := ActivationRunStep(s, outcome).log[|s.log| + 2..];
            && Completions(added) == 1
            && (outcome.Returns? <==> (exists m :: m in added && m.Push?))
            && (outcome.Returns? ==> added == [Push(outcome.value), Completion(Finished, "")])
            && (outcome.Throws? ==> added == [Completion(Error, outcome.what)])
            && (outcome.ThrowsUnknown? ==> added == [Completion(Error, "unknown exception")])
  {
    var added := ActivationRunStep(s, outcome).log[|s.log| + 2..];
    if outcome.Returns? {
      assert added == [Push(outcome.value)] + [Completion(Finished, "")];
      CompletionsAppend([Push(outcome.value)], [Completion(Finished, "")]);
      CompletionsSingle(Push(outcome.value));
      CompletionsSingle(Completion(Finished, ""));
      assert added[0].Push?;
    } else {
      CompletionsSingle(added[0]);
    }
  }

  /** Because activation does not consult pushable, an activation that is
      cancelled before it runs still runs and sends Finished. It never sets the
      reply proxy, so Cancelled goes out before it only when the provider's
      cancel throws; a cancel that returns sends no completion. */
  lemma CancelThenActivate(s: QueryState, o: Outcome<()>, alive: bool, response: VariantMap)
    requires s.pushable && s.selfHeld && !s.replyProxySet
    ensures CancelStep(s, o, alive).selfHeld
    ensures var t := ActivationRunStep(CancelStep(s, o, alive), Returns(response));
            && !t.pushable
            && (!o.Returns? ==>
                  t.log == s.log + [ProviderCancel, Completion(Cancelled, ""), Disconnect, ProviderActivate,
                                    Push(response), Completion(Finished, "")])
            && (o.Returns? ==>
                  t.log == s.log + [ProviderCancel, Disconnect, ProviderActivate, Push(response), Completion(Finished, "")])
  {
  }
}
