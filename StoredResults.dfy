/** The walk over a record's chain of stored results (find_stored_result) and
    the three questions answered with it: is activation direct, which record
    receives the activation, and which scope it is sent to. */
module StoredResults {
  import opened Variants
  import opened Results

  const MissingInternal := "ResultImpl::find_stored_result(): Invalid structure of stored result, missing 'internal"

  /** The C++ callbacks are closures that update captured variables and may
      throw; here each one maps the captured state `A` and the visited level
      to the new captured state, or to the exception it throws. */
  type Callback<!A> = (A, VariantMap) -> Result<A>

  // ------------------------------------------------------------ the walk

  /** find_stored_result from the given (serialised) level inwards: read the
      level's flags, call `found` and stop on a match, otherwise call
      `notFound` and descend into the nested "result", or stop at the innermost
      level. Returns whether a level matched and the final captured state. */
  function Walk<A>(stored: VariantMap, cmp: int -> bool, found: Callback<A>, notFound: Callback<A>, acc: A): Result<(bool, A)>
    decreases Dict(stored)
  {
    if "internal" !in stored then Err(Logic(MissingInternal))
    else
      var internal :- GetDict(stored["internal"]);
      var flags :- if "flags" in internal then GetInt(internal["flags"]) else Ok(ActivationNotHandled);
      if cmp(flags) then
        var a :- found(acc, stored);
        Ok((true, a))
      else
        var a :- notFound(acc, stored);
        if "result" !in internal then Ok((false, a))
        else
          var inner :- GetDict(internal["result"]);
          Walk(inner, cmp, found, notFound, a)
  }

  /** find_stored_result on the record's stored result: false, with no callback
      called, when nothing is stored. */
  function FindStoredResultSpec<A>(stored: Option<VariantMap>, cmp: int -> bool, found: Callback<A>, notFound: Callback<A>, acc: A): Result<(bool, A)>
  {
    if stored.None? then Ok((false, acc)) else Walk(stored.value, cmp, found, notFound, acc)
  }

  /** find_stored_result, as the loop that reassigns `stored` level by level. */
  method FindStoredResult<A>(storedResult: Option<VariantMap>, cmp: int -> bool, found: Callback<A>, notFound: Callback<A>, acc: A)
    returns (r: Result<(bool, A)>)
    ensures r == FindStoredResultSpec(storedResult, cmp, found, notFound, acc)
  {
    if storedResult.None? {
      return Ok((false, acc));
    }
    var isFound := false;
    var stored := storedResult.value;
    var a := acc;
    while !isFound
      invariant FindStoredResultSpec(storedResult, cmp, found, notFound, acc)
                == if isFound then Ok((true, a)) else Walk(stored, cmp, found, notFound, a)
      decreases !isFound, Dict(stored)
    {
      if "internal" !in stored {
        return Err(Logic(MissingInternal));
      }
      var internal :- GetDict(stored["internal"]);
      var flags := ActivationNotHandled;
      if "flags" in internal {
        flags :- GetInt(internal["flags"]);
      }
      if cmp(flags) {
        a :- found(a, stored);
        isFound := true;
      } else {
        a :- notFound(a, stored);
        if "result" !in internal {
          break;
        }
        stored :- GetDict(internal["result"]);
      }
    }
    return Ok((isFound, a));
  }

  // ------------------------------------------------ the levels the walk reads

  /** A level whose flags the walk can read: an "internal" dictionary whose
      "flags", if present, is an integer. */
  predicate FlagsReadable(level: VariantMap)
  {
    && "internal" in level && level["internal"].Dict?
    && ("flags" in level["internal"].d ==> level["internal"].d["flags"].Int?)
  }

  /** The flags of a level whose flags the walk can read; the default flags of
      any other (the walk never reaches a callback on it). */
  function LevelFlags(level: VariantMap): int
  {
    if !FlagsReadable(level) then ActivationNotHandled
    else
      var internal := level["internal"].d;
      if "flags" in internal then internal["flags"].i else ActivationNotHandled
  }

  /** The walk goes past a level when it can read its flags, the level does
      not match, and it holds a nested result that is a dictionary. */
  predicate Continues(level: VariantMap, cmp: int -> bool)
  {
    && FlagsReadable(level) && !cmp(LevelFlags(level))
    && "result" in level["internal"].d && level["internal"].d["result"].Dict?
  }

  /** The walk ends at a level with no error of its own (the callbacks aside):
      it can read the flags, and the level matches or holds no nested result. */
  predicate Stops(level: VariantMap, cmp: int -> bool)
  {
    FlagsReadable(level) && (cmp(LevelFlags(level)) || "result" !in level["internal"].d)
  }

  /** The levels find_stored_result reads, outermost first. The last one is
      where it stops: the first level that matches, the innermost one, or the
      first one it cannot read; nothing nested deeper is looked at. */
  function Visited(stored: VariantMap, cmp: int -> bool): (vs: seq<VariantMap>)
    ensures |vs| >= 1 && vs[0] == stored
    decreases Dict(stored)
  {
    if Continues(stored, cmp) then [stored] + Visited(stored["internal"].d["result"].d, cmp)
    else [stored]
  }

  /** The last level the walk reads. */
  function StopLevel(stored: VariantMap, cmp: int -> bool): VariantMap
  {
    var vs := Visited(stored, cmp);
    vs[|vs| - 1]
  }

  /** A callback that succeeds on each level of `ls`, whatever it captured. */
  ghost predicate SucceedsOn<A(!new)>(f: Callback<A>, ls: seq<VariantMap>)
  {
    forall a: A, i :: 0 <= i < |ls| ==> f(a, ls[i]).Ok?
  }

  /** The levels read from a level the walk goes past: that level, then those
      read from its nested result. */
  lemma VisitedCons(m: VariantMap, cmp: int -> bool)
    requires Continues(m, cmp)
    ensures var vs := Visited(m, cmp);
            var rest := Visited(m["internal"].d["result"].d, cmp);
            && vs == [m] + rest && vs[1..] == rest
            && StopLevel(m, cmp) == StopLevel(m["internal"].d["result"].d, cmp)
            && vs[..|vs| - 1] == [m] + rest[..|rest| - 1]
  {
    var vs := Visited(m, cmp);
    var rest := Visited(m["internal"].d["result"].d, cmp);
    assert vs[|vs| - 1] == rest[|rest| - 1];
  }

  /** A level the walk does not go past is the only one it reads. */
  lemma VisitedStop(m: VariantMap, cmp: int -> bool)
    requires !Continues(m, cmp)
    ensures Visited(m, cmp) == [m] && StopLevel(m, cmp) == m
  {
  }

  lemma SucceedsOnTail<A(!new)>(f: Callback<A>, ls: seq<VariantMap>, a: A)
    requires |ls| >= 1 && SucceedsOn(f, ls)
    ensures f(a, ls[0]).Ok? && SucceedsOn(f, ls[1..])
  {
    forall b: A, i | 0 <= i < |ls| - 1
      ensures f(b, ls[1..][i]).Ok?
    {
      assert ls[1..][i] == ls[i + 1];
    }
  }

  /** Each level the walk reads before the last can be read in full, does not
      match and holds the next one, and the walk does not go past the last. */
  lemma {:induction false} VisitedShape(m: VariantMap, cmp: int -> bool)
    ensures var vs := Visited(m, cmp);
            && (forall i :: 0 <= i < |vs| - 1 ==>
                  Continues(vs[i], cmp) && vs[i + 1] == vs[i]["internal"].d["result"].d)
            && !Continues(vs[|vs| - 1], cmp)
    decreases Dict(m)
  {
    if Continues(m, cmp) {
      var inner := m["internal"].d["result"].d;
      VisitedCons(m, cmp);
      VisitedShape(inner, cmp);
      var vs := Visited(m, cmp);
      var rest := Visited(inner, cmp);
      forall i | 0 <= i < |vs| - 1
        ensures Continues(vs[i], cmp) && vs[i + 1] == vs[i]["internal"].d["result"].d
      {
        if i > 0 {
          assert vs[i] == rest[i - 1] && vs[i + 1] == rest[i];
        }
      }
      assert vs[|vs| - 1] == rest[|rest| - 1];
    }
  }

  /** One step of the walk on a level it goes past. */
  lemma WalkContinues<A>(m: VariantMap, cmp: int -> bool, found: Callback<A>, notFound: Callback<A>, acc: A)
    requires Continues(m, cmp) && notFound(acc, m).Ok?
    ensures Walk(m, cmp, found, notFound, acc) == Walk(m["internal"].d["result"].d, cmp, found, notFound, notFound(acc, m).value)
  {
  }

  /** The walk on a level it does not go past: on a level where it stops, the
      result of the callback it calls there; on any other, an error. */
  lemma WalkLast<A>(m: VariantMap, cmp: int -> bool, found: Callback<A>, notFound: Callback<A>, acc: A)
    requires !Continues(m, cmp)
    ensures Stops(m, cmp) ==>
              var c := if cmp(LevelFlags(m)) then found(acc, m) else notFound(acc, m);
              Walk(m, cmp, found, notFound, acc) == if c.Ok? then Ok((cmp(LevelFlags(m)), c.value)) else Err(c.error)
    ensures !Stops(m, cmp) ==> Walk(m, cmp, found, notFound, acc).Err?
    ensures "internal" !in m ==> Walk(m, cmp, found, notFound, acc) == Err(Logic(MissingInternal))
  {
  }

  /** Whatever the callbacks, a walk that succeeds has stopped cleanly at the
      last level it read and reports whether that level matches; with callbacks
      that succeed on the levels it reads, it succeeds exactly when it can stop
      cleanly there. */
  lemma {:induction false} WalkOutcome<A(!new)>(m: VariantMap, cmp: int -> bool, found: Callback<A>, notFound: Callback<A>, acc: A)
    ensures var w := Walk(m, cmp, found, notFound, acc);
            w.Ok? ==> Stops(StopLevel(m, cmp), cmp) && w.value.0 == cmp(LevelFlags(StopLevel(m, cmp)))
    ensures SucceedsOn(found, Visited(m, cmp)) && SucceedsOn(notFound, Visited(m, cmp)) ==>
              (Walk(m, cmp, found, notFound, acc).Ok? <==> Stops(StopLevel(m, cmp), cmp))
    decreases Dict(m)
  {
    var vs := Visited(m, cmp);
    if Continues(m, cmp) {
      var inner := m["internal"].d["result"].d;
      VisitedCons(m, cmp);
      if notFound(acc, m).Ok? {
        WalkContinues(m, cmp, found, notFound, acc);
        if SucceedsOn(found, vs) && SucceedsOn(notFound, vs) {
          SucceedsOnTail(found, vs, acc);
          SucceedsOnTail(notFound, vs, acc);
        }
        WalkOutcome(inner, cmp, found, notFound, notFound(acc, m).value);
      } else {
        assert vs[0] == m;
      }
    } else {
      VisitedStop(m, cmp);
      WalkLast(m, cmp, found, notFound, acc);
      if SucceedsOn(found, vs) && SucceedsOn(notFound, vs) {
        assert found(acc, vs[0]).Ok? && notFound(acc, vs[0]).Ok?;
      }
    }
  }

  /** A level without an "internal" element where the walk stops makes it
      fail with the LogicException, when `notFound` succeeds on the levels
      before it. */
  lemma {:induction false} MissingInternalFails<A(!new)>(m: VariantMap, cmp: int -> bool, found: Callback<A>, notFound: Callback<A>, acc: A)
    requires var vs := Visited(m, cmp); SucceedsOn(notFound, vs[..|vs| - 1])
    requires "internal" !in StopLevel(m, cmp)
    ensures Walk(m, cmp, found, notFound, acc) == Err(Logic(MissingInternal))
    decreases Dict(m)
  {
    var vs := Visited(m, cmp);
    if Continues(m, cmp) {
      var inner := m["internal"].d["result"].d;
      var rest := Visited(inner, cmp);
      VisitedCons(m, cmp);
      SucceedsOnTail(notFound, vs[..|vs| - 1], acc);
      assert vs[..|vs| - 1][1..] == rest[..|rest| - 1];
      WalkContinues(m, cmp, found, notFound, acc);
      MissingInternalFails(inner, cmp, found, notFound, notFound(acc, m).value);
    } else {
      VisitedStop(m, cmp);
      WalkLast(m, cmp, found, notFound, acc);
    }
  }

  // ------------------------------------- the chain, as an independent definition

  /** A level the walk can read in full: its flags, and its "result", if
      present, is a dictionary. */
  predicate WellFormedLevel(level: VariantMap)
  {
    FlagsReadable(level) && ("result" in level["internal"].d ==> level["internal"].d["result"].Dict?)
  }

  /** The whole chain of stored results, outermost first, when every level is
      well formed. */
  function Levels(stored: VariantMap): (ls: Option<seq<VariantMap>>)
    ensures ls.Some? ==> |ls.value| >= 1 && ls.value[0] == stored
    ensures ls.Some? ==> forall i :: 0 <= i < |ls.value| ==> WellFormedLevel(ls.value[i])
    decreases Dict(stored)
  {
    if !WellFormedLevel(stored) then None
    else
      var internal := stored["internal"].d;
      if "result" !in internal then Some([stored])
      else match Levels(internal["result"].d)
        case None => None
        case Some(rest) => Some([stored] + rest)
  }

  /** Where a walk with `cmp` stops on a chain: the first level that matches,
      else the innermost one. */
  function StopIndex(ls: seq<VariantMap>, cmp: int -> bool): (k: nat)
    requires |ls| >= 1 && forall i :: 0 <= i < |ls| ==> WellFormedLevel(ls[i])
    ensures k < |ls|
    ensures forall j :: 0 <= j < k ==> !cmp(LevelFlags(ls[j]))
    ensures cmp(LevelFlags(ls[k])) || k == |ls| - 1
  {
    if cmp(LevelFlags(ls[0])) || |ls| == 1 then 0
    else
      var k := StopIndex(ls[1..], cmp);
      assert forall j :: 1 <= j < k + 1 ==> ls[j] == ls[1..][j - 1];
      1 + k
  }

  /** One level of the chain: the level itself, then the chain of its nested
      result, if any. */
  lemma LevelsUnfold(m: VariantMap)
    requires Levels(m).Some?
    ensures WellFormedLevel(m)
    ensures "result" !in m["internal"].d ==> Levels(m).value == [m]
    ensures "result" in m["internal"].d ==>
              && Levels(m["internal"].d["result"].d).Some?
              && Levels(m).value == [m] + Levels(m["internal"].d["result"].d).value
  {
  }

  /** Where the walk stops on a chain of at least two levels. */
  lemma StopIndexCons(ls: seq<VariantMap>, cmp: int -> bool)
    requires |ls| >= 2 && forall i :: 0 <= i < |ls| ==> WellFormedLevel(ls[i])
    ensures StopIndex(ls, cmp) == if cmp(LevelFlags(ls[0])) then 0 else 1 + StopIndex(ls[1..], cmp)
  {
  }

  /** Prefixes of a chain with one more level in front. */
  lemma PrefixCons(m: VariantMap, rest: seq<VariantMap>, k: nat)
    requires k < |rest|
    ensures ([m] + rest)[k + 1] == rest[k]
    ensures [m] + rest[..k + 1] == ([m] + rest)[..k + 2]
  {
    assert ([m] + rest)[..k + 2] == [m] + rest[..k + 1];
  }

  /** On a chain whose every level is readable, the walk reads exactly the
      levels up to StopIndex, and stops cleanly at the last of them. */
  lemma {:induction false} VisitedIsChainPrefix(m: VariantMap, ls: seq<VariantMap>, cmp: int -> bool)
    requires Levels(m) == Some(ls)
    ensures Visited(m, cmp) == ls[..StopIndex(ls, cmp) + 1]
    ensures StopLevel(m, cmp) == ls[StopIndex(ls, cmp)] && Stops(StopLevel(m, cmp), cmp)
    decreases Dict(m)
  {
    LevelsUnfold(m);
    if cmp(LevelFlags(m)) || "result" !in m["internal"].d {
      assert StopIndex(ls, cmp) == 0;
      VisitedStop(m, cmp);
      assert ls[..1] == [m];
    } else {
      var inner := m["internal"].d["result"].d;
      var rest := Levels(inner).value;
      assert ls == [m] + rest && ls[1..] == rest;
      StopIndexCons(ls, cmp);
      VisitedCons(m, cmp);
      VisitedIsChainPrefix(inner, rest, cmp);
      var k := StopIndex(rest, cmp);
      assert StopIndex(ls, cmp) == k + 1;
      PrefixCons(m, rest, k);
    }
  }

  // ------------------------------------------------- the order of the callbacks

  /** A call of a callback: which one (true for `found`) and on which level. */
  type Call = (bool, VariantMap)

  /** The callbacks that record each call they receive, for observing which
      callback runs on which level. */
  function TagFound(calls: seq<Call>, level: VariantMap): Result<seq<Call>>
  {
    Ok(calls + [(true, level)])
  }

  function TagNotFound(calls: seq<Call>, level: VariantMap): Result<seq<Call>>
  {
    Ok(calls + [(false, level)])
  }

  /** The calls the walk makes on the levels it reads: `notFound` on each one
      before the last, then, on the last, `found` when it matches and
      `notFound` when it does not. */
  function ExpectedCalls(vs: seq<VariantMap>, cmp: int -> bool): (calls: seq<Call>)
    requires |vs| >= 1 && FlagsReadable(vs[|vs| - 1])
    ensures |calls| == |vs|
  {
    var k := |vs| - 1;
    seq(k, i requires 0 <= i < k => (false, vs[i])) + [(cmp(LevelFlags(vs[k])), vs[k])]
  }

  lemma ExpectedCallsCons(vs: seq<VariantMap>, cmp: int -> bool)
    requires |vs| >= 2 && FlagsReadable(vs[|vs| - 1])
    ensures ExpectedCalls(vs, cmp) == [(false, vs[0])] + ExpectedCalls(vs[1..], cmp)
  {
    var lhs := ExpectedCalls(vs, cmp);
    var rhs := [(false, vs[0])] + ExpectedCalls(vs[1..], cmp);
    assert |lhs| == |rhs|;
    forall i | 0 <= i < |vs|
      ensures lhs[i] == rhs[i]
    {
      if i > 0 {
        assert rhs[i] == ExpectedCalls(vs[1..], cmp)[i - 1];
        assert vs[1..][i - 1] == vs[i];
      }
    }
  }

  lemma ExpectedCallsStop(vs: seq<VariantMap>, cmp: int -> bool)
    requires |vs| == 1 && FlagsReadable(vs[0])
    ensures ExpectedCalls(vs, cmp) == [(cmp(LevelFlags(vs[0])), vs[0])]
  {
    var calls := ExpectedCalls(vs, cmp);
    assert calls[0] == (cmp(LevelFlags(vs[0])), vs[0]);
  }

  lemma CallsCons(calls: seq<Call>, c: Call, rest: seq<Call>)
    ensures (calls + [c]) + rest == calls + ([c] + rest)
  {
  }

  /** The walk calls `notFound` on every level it reads before the last, each
      once and in order; on the last it calls `found` if it matches, or
      `notFound` if it is the innermost; it reports a match exactly when the
      last level matches. */
  lemma {:induction false} WalkVisitsInOrder(m: VariantMap, cmp: int -> bool, calls: seq<Call>)
    requires Stops(StopLevel(m, cmp), cmp)
    ensures var vs := Visited(m, cmp);
            Walk(m, cmp, TagFound, TagNotFound, calls)
              == Ok((cmp(LevelFlags(vs[|vs| - 1])), calls + ExpectedCalls(vs, cmp)))
    decreases Dict(m)
  {
    var vs := Visited(m, cmp);
    if Continues(m, cmp) {
      var inner := m["internal"].d["result"].d;
      var rest := Visited(inner, cmp);
      VisitedCons(m, cmp);
      WalkContinues(m, cmp, TagFound, TagNotFound, calls);
      WalkVisitsInOrder(inner, cmp, calls + [(false, m)]);
      ExpectedCallsCons(vs, cmp);
      CallsCons(calls, (false, m), ExpectedCalls(rest, cmp));
    } else {
      VisitedStop(m, cmp);
      WalkLast(m, cmp, TagFound, TagNotFound, calls);
      ExpectedCallsStop(vs, cmp);
    }
  }

  // ---------------------------------------------------------- direct_activation

  function Ignore(u: (), level: VariantMap): Result<()> { Ok(()) }

  /** direct_activation(): false when this record intercepts activation,
      otherwise true unless some stored level intercepts it. */
  function DirectActivation(r: ResultState): Result<bool>
  {
    if Intercepts(r.flags) then Ok(false)
    else
      var w :- FindStoredResultSpec(r.stored, Intercepts, Ignore, Ignore, ());
      Ok(!w.0)
  }

  /** The level a walk stops at matches exactly when some level of the chain
      matches. */
  lemma StopLevelMatchesIff(ls: seq<VariantMap>, cmp: int -> bool)
    requires |ls| >= 1 && forall i :: 0 <= i < |ls| ==> WellFormedLevel(ls[i])
    ensures cmp(LevelFlags(ls[StopIndex(ls, cmp)])) <==> exists i :: 0 <= i < |ls| && cmp(LevelFlags(ls[i]))
  {
    var k := StopIndex(ls, cmp);
    if !cmp(LevelFlags(ls[k])) {
      forall i | 0 <= i < |ls|
        ensures !cmp(LevelFlags(ls[i]))
      {
        if i != k {
          assert i < k;
        }
      }
    }
  }

  /** The walk with the intercept test succeeds exactly when it can stop
      cleanly at the last level it reads, and then reports whether that level
      intercepts; on a chain whose every level is readable, that is whether
      some level of the chain intercepts. */
  lemma WalkFindsIntercept(m: VariantMap)
    ensures Walk(m, Intercepts, Ignore, Ignore, ()).Ok? <==> Stops(StopLevel(m, Intercepts), Intercepts)
    ensures Stops(StopLevel(m, Intercepts), Intercepts) ==>
              Walk(m, Intercepts, Ignore, Ignore, ()).Ok?
              && Walk(m, Intercepts, Ignore, Ignore, ()).value.0 == Intercepts(LevelFlags(StopLevel(m, Intercepts)))
    ensures Levels(m).Some? ==>
              && Walk(m, Intercepts, Ignore, Ignore, ()).Ok?
              && (Walk(m, Intercepts, Ignore, Ignore, ()).value.0 <==>
                    exists i :: 0 <= i < |Levels(m).value| && Intercepts(LevelFlags(Levels(m).value[i])))
  {
    assert SucceedsOn(Ignore, Visited(m, Intercepts));
    WalkOutcome(m, Intercepts, Ignore, Ignore, ());
    if Levels(m).Some? {
      var ls := Levels(m).value;
      VisitedIsChainPrefix(m, ls, Intercepts);
      StopLevelMatchesIff(ls, Intercepts);
    }
  }

  /** direct_activation succeeds unless the walk cannot stop cleanly, and then
      activation is direct exactly when neither the record nor the level where
      the walk stops carries the intercept bit; on a chain whose every level is
      readable, exactly when neither the record nor any level carries it. */
  lemma DirectActivationIff(r: ResultState)
    ensures DirectActivation(r).Ok? <==>
              Intercepts(r.flags) || r.stored.None? || Stops(StopLevel(r.stored.value, Intercepts), Intercepts)
    ensures !Intercepts(r.flags) && r.stored.Some? && Stops(StopLevel(r.stored.value, Intercepts), Intercepts) ==>
              DirectActivation(r) == Ok(!Intercepts(LevelFlags(StopLevel(r.stored.value, Intercepts))))
    ensures (r.stored.Some? ==> Levels(r.stored.value).Some?) ==>
              && DirectActivation(r).Ok?
              && (DirectActivation(r).value <==>
                    && !Intercepts(r.flags)
                    && (r.stored.Some? ==>
                          var ls := Levels(r.stored.value).value;
                          forall i :: 0 <= i < |ls| ==> !Intercepts(LevelFlags(ls[i]))))
  {
    if !Intercepts(r.flags) && r.stored.Some? {
      WalkFindsIntercept(r.stored.value);
    }
  }

  // ---------------------------------------------------------- activation_target

  /** The captured pair (res, most_inner) of activation_target. */
  function KeepMatch(t: (VariantMap, VariantMap), level: VariantMap): Result<(VariantMap, VariantMap)>
  {
    Ok((level, t.1))
  }

  function KeepInner(t: (VariantMap, VariantMap), level: VariantMap): Result<(VariantMap, VariantMap)>
  {
    Ok((t.0, level))
  }

  /** activation_target(): the record's own serialisation when it intercepts
      activation or stores nothing, else the first intercepting stored level,
      else the innermost one. */
  function ActivationTarget(r: ResultState): Result<VariantMap>
  {
    if Intercepts(r.flags) || r.stored.None? then Serialize(r)
    else
      var w :- FindStoredResultSpec(r.stored, Intercepts, KeepMatch, KeepInner, (map[], map[]));
      if w.0 then Ok(w.1.0) else Ok(w.1.1)
  }

  /** With activation_target's callbacks the walk succeeds exactly when it can
      stop cleanly, and then holds the level where it stopped. */
  lemma {:induction false} WalkKeepsStopLevel(m: VariantMap, t: (VariantMap, VariantMap))
    ensures var w := Walk(m, Intercepts, KeepMatch, KeepInner, t);
            && (w.Ok? <==> Stops(StopLevel(m, Intercepts), Intercepts))
            && (w.Ok? ==> (if w.value.0 then w.value.1.0 else w.value.1.1) == StopLevel(m, Intercepts))
    decreases Dict(m)
  {
    WalkOutcome(m, Intercepts, KeepMatch, KeepInner, t);
    if Continues(m, Intercepts) {
      var inner := m["internal"].d["result"].d;
      VisitedCons(m, Intercepts);
      WalkContinues(m, Intercepts, KeepMatch, KeepInner, t);
      WalkKeepsStopLevel(inner, (t.0, m));
    } else {
      VisitedStop(m, Intercepts);
      WalkLast(m, Intercepts, KeepMatch, KeepInner, t);
    }
  }

  /** activation_target: a record that intercepts activation, or stores
      nothing, is its own target, given as its serialisation, from which the
      record reads back; otherwise the target is the level where the walk
      stops: the first intercepting stored result, or the innermost when none
      intercepts, and activation_target fails when the walk cannot read it. */
  lemma ActivationTargetIsStopLevel(r: ResultState)
    ensures Intercepts(r.flags) || r.stored.None? ==> ActivationTarget(r) == Serialize(r)
    ensures (Intercepts(r.flags) || r.stored.None?) && ValidAttrs(r.attrs) && Serializable(r.attrs) ==>
              ActivationTarget(r).Ok? && FromVariantMap(ActivationTarget(r).value) == Ok(r)
    ensures !Intercepts(r.flags) && r.stored.Some? ==>
              && (ActivationTarget(r).Ok? <==> Stops(StopLevel(r.stored.value, Intercepts), Intercepts))
              && (ActivationTarget(r).Ok? ==> ActivationTarget(r).value == StopLevel(r.stored.value, Intercepts))
    ensures !Intercepts(r.flags) && r.stored.Some? && Levels(r.stored.value).Some? ==>
              var ls := Levels(r.stored.value).value;
              ActivationTarget(r) == Ok(ls[StopIndex(ls, Intercepts)])
  {
    if Intercepts(r.flags) || r.stored.None? {
      if ValidAttrs(r.attrs) && Serializable(r.attrs) {
        DeserializeSerialize(r);
      }
    } else {
      WalkKeepsStopLevel(r.stored.value, (map[], map[]));
      if Levels(r.stored.value).Some? {
        VisitedIsChainPrefix(r.stored.value, Levels(r.stored.value).value, Intercepts);
      }
    }
  }

  // ------------------------------------------------- target_scope_proxy's target

  /** get_origin in target_scope_proxy. */
  function GetOrigin(level: VariantMap): Result<string>
  {
    if "internal" !in level then Err(Logic("Result::target_scope_proxy(): 'internal' element missing"))
    else
      var intvar :- GetDict(level["internal"]);
      if "origin" !in intvar then Err(Logic("Result::target_scope_proxy(): 'origin' element missing"))
      else GetString(intvar["origin"])
  }

  /** Both callbacks of target_scope_proxy: `target = get_origin(var)`. */
  function SetTarget(target: string, level: VariantMap): Result<string>
  {
    GetOrigin(level)
  }

  /** The target string target_scope_proxy resolves to a proxy. */
  function TargetString(r: ResultState): Result<string>
  {
    if Intercepts(r.flags) || r.stored.None? then Ok(r.origin)
    else
      var w :- FindStoredResultSpec(r.stored, Intercepts, SetTarget, SetTarget, "");
      Ok(w.1)
  }

  /** target_scope_proxy() up to the conversion of the string into a proxy:
      an empty target, or a record that never passed through the middleware
      (no runtime), fails with a LogicException. */
  function TargetScope(r: ResultState, hasRuntime: bool): (t: Result<string>)
    ensures t.Ok? ==> t.value != "" && hasRuntime && TargetString(r) == Ok(t.value)
    ensures TargetString(r).Ok? && (TargetString(r).value == "" || !hasRuntime) ==>
              t == Err(Logic("Result::target_scope_proxy(): undefined target scope"))
    ensures TargetString(r).Ok? && TargetString(r).value != "" && hasRuntime ==> t == Ok(TargetString(r).value)
    ensures TargetString(r).Err? ==> t == Err(TargetString(r).error)
  {
    var target :- TargetString(r);
    if target == "" || !hasRuntime then Err(Logic("Result::target_scope_proxy(): undefined target scope"))
    else Ok(target)
  }

  /** A level whose "internal" dictionary holds a string origin. */
  predicate HasOrigin(level: VariantMap)
  {
    "internal" in level && level["internal"].Dict?
    && "origin" in level["internal"].d && level["internal"].d["origin"].Str?
  }

  function OriginOf(level: VariantMap): string
    requires HasOrigin(level)
  {
    level["internal"].d["origin"].s
  }

  /** The first `n` levels of a sequence each have a string origin. */
  predicate OriginsBefore(ls: seq<VariantMap>, n: nat)
  {
    n <= |ls| && forall i :: 0 <= i < n ==> HasOrigin(ls[i])
  }

  lemma OriginsOfRest(m: VariantMap, rest: seq<VariantMap>, n: nat)
    requires OriginsBefore([m] + rest, n + 1)
    ensures HasOrigin(m) && OriginsBefore(rest, n)
  {
    assert ([m] + rest)[0] == m;
    forall i | 0 <= i < n
      ensures HasOrigin(rest[i])
    {
      assert ([m] + rest)[i + 1] == rest[i];
    }
  }

  /** get_origin succeeds exactly on a level with a string origin, and returns
      it; a missing "internal" or "origin" element has its own LogicException. */
  lemma GetOriginReadsOrigin(level: VariantMap)
    ensures GetOrigin(level).Ok? <==> HasOrigin(level)
    ensures GetOrigin(level).Ok? ==> GetOrigin(level).value == OriginOf(level)
    ensures "internal" !in level ==>
              GetOrigin(level) == Err(Logic("Result::target_scope_proxy(): 'internal' element missing"))
    ensures "internal" in level && level["internal"].Dict? && "origin" !in level["internal"].d ==>
              GetOrigin(level) == Err(Logic("Result::target_scope_proxy(): 'origin' element missing"))
  {
  }

  lemma SetTargetTakesOrigin(t: string, level: VariantMap)
    requires HasOrigin(level)
    ensures SetTarget(t, level) == Ok(OriginOf(level))
  {
  }

  /** get_origin succeeds on the first `n` levels of a sequence that have an origin. */
  lemma SetTargetSucceedsOn(ls: seq<VariantMap>, n: nat)
    requires OriginsBefore(ls, n)
    ensures SucceedsOn(SetTarget, ls[..n])
  {
    forall t: string, i | 0 <= i < n
      ensures SetTarget(t, ls[..n][i]).Ok?
    {
      assert ls[..n][i] == ls[i];
      SetTargetTakesOrigin(t, ls[i]);
    }
  }

  /** With target_scope_proxy's callbacks, when every level the walk reads has
      an origin and it can stop cleanly, the walk ends holding the origin of
      the level where it stopped. */
  lemma {:induction false} WalkTakesStopOrigin(m: VariantMap, t: string)
    requires OriginsBefore(Visited(m, Intercepts), |Visited(m, Intercepts)|)
    requires Stops(StopLevel(m, Intercepts), Intercepts)
    ensures HasOrigin(StopLevel(m, Intercepts))
    ensures Walk(m, Intercepts, SetTarget, SetTarget, t)
              == Ok((Intercepts(LevelFlags(StopLevel(m, Intercepts))), OriginOf(StopLevel(m, Intercepts))))
    decreases Dict(m)
  {
    var vs := Visited(m, Intercepts);
    assert HasOrigin(vs[0]) && HasOrigin(vs[|vs| - 1]);
    SetTargetTakesOrigin(t, m);
    if Continues(m, Intercepts) {
      var inner := m["internal"].d["result"].d;
      var rest := Visited(inner, Intercepts);
      VisitedCons(m, Intercepts);
      OriginsOfRest(m, rest, |rest|);
      WalkContinues(m, Intercepts, SetTarget, SetTarget, t);
      WalkTakesStopOrigin(inner, OriginOf(m));
    } else {
      VisitedStop(m, Intercepts);
      WalkLast(m, Intercepts, SetTarget, SetTarget, t);
    }
  }

  /** The first level the walk reads without a string origin, when the walk
      can read its flags, ends the walk with get_origin's error. */
  lemma {:induction false} WalkFailsAtMissingOrigin(m: VariantMap, t: string, j: nat)
    requires var vs := Visited(m, Intercepts);
             j < |vs| && OriginsBefore(vs, j) && !HasOrigin(vs[j]) && FlagsReadable(vs[j])
    ensures GetOrigin(Visited(m, Intercepts)[j]).Err?
    ensures Walk(m, Intercepts, SetTarget, SetTarget, t) == Err(GetOrigin(Visited(m, Intercepts)[j]).error)
    decreases Dict(m)
  {
    var vs := Visited(m, Intercepts);
    GetOriginReadsOrigin(vs[j]);
    if j == 0 {
      assert SetTarget(t, m) == GetOrigin(vs[0]);
      if Continues(m, Intercepts) {
        assert Walk(m, Intercepts, SetTarget, SetTarget, t) == Err(GetOrigin(m).error);
      } else {
        VisitedStop(m, Intercepts);
        WalkLast(m, Intercepts, SetTarget, SetTarget, t);
      }
    } else {
      assert HasOrigin(vs[0]);
      SetTargetTakesOrigin(t, m);
      assert Continues(m, Intercepts);
      var inner := m["internal"].d["result"].d;
      var rest := Visited(inner, Intercepts);
      VisitedCons(m, Intercepts);
      OriginsOfRest(m, rest, j - 1);
      assert rest[j - 1] == vs[j];
      WalkContinues(m, Intercepts, SetTarget, SetTarget, t);
      WalkFailsAtMissingOrigin(inner, OriginOf(m), j - 1);
    }
  }

  /** target_scope_proxy chooses its target the same way activation_target
      chooses its record: when every level the walk reads has an origin, both
      succeed exactly when the walk can stop cleanly, and the target is the
      origin of the level activation_target returns. */
  lemma TargetIsActivationTargetOrigin(r: ResultState)
    requires !Intercepts(r.flags) && r.stored.Some?
    requires var vs := Visited(r.stored.value, Intercepts); OriginsBefore(vs, |vs|)
    ensures ActivationTarget(r).Ok? <==> Stops(StopLevel(r.stored.value, Intercepts), Intercepts)
    ensures TargetString(r).Ok? <==> Stops(StopLevel(r.stored.value, Intercepts), Intercepts)
    ensures ActivationTarget(r).Ok? ==>
              HasOrigin(ActivationTarget(r).value) && TargetString(r) == Ok(OriginOf(ActivationTarget(r).value))
  {
    var m := r.stored.value;
    var vs := Visited(m, Intercepts);
    ActivationTargetIsStopLevel(r);
    if Stops(StopLevel(m, Intercepts), Intercepts) {
      WalkTakesStopOrigin(m, "");
    } else {
      SetTargetSucceedsOn(vs, |vs|);
      assert vs[..|vs|] == vs;
      WalkOutcome(m, Intercepts, SetTarget, SetTarget, "");
    }
  }

  /** Otherwise the first level the walk reads without a string origin makes
      target_scope_proxy fail: with get_origin's error (its LogicException
      when the origin is missing) when the walk can read that level's flags,
      with the walk's LogicException when the level has no "internal" element;
      activation_target meanwhile succeeds exactly when the walk can stop
      cleanly. */
  lemma TargetFailsAtMissingOrigin(r: ResultState, hasRuntime: bool, j: nat)
    requires !Intercepts(r.flags) && r.stored.Some?
    requires var vs := Visited(r.stored.value, Intercepts);
             j < |vs| && OriginsBefore(vs, j) && !HasOrigin(vs[j])
    ensures TargetString(r).Err? && TargetScope(r, hasRuntime) == Err(TargetString(r).error)
    ensures var level := Visited(r.stored.value, Intercepts)[j];
            && (FlagsReadable(level) ==> TargetString(r) == Err(GetOrigin(level).error))
            && (FlagsReadable(level) && "origin" !in level["internal"].d ==>
                  TargetString(r) == Err(Logic("Result::target_scope_proxy(): 'origin' element missing")))
            && ("internal" !in level ==> TargetString(r) == Err(Logic(MissingInternal)))
    ensures ActivationTarget(r).Ok? <==> Stops(StopLevel(r.stored.value, Intercepts), Intercepts)
  {
    var m := r.stored.value;
    var vs := Visited(m, Intercepts);
    var level := vs[j];
    ActivationTargetIsStopLevel(r);
    GetOriginReadsOrigin(level);
    if FlagsReadable(level) {
      WalkFailsAtMissingOrigin(m, "", j);
    } else {
      VisitedShape(m, Intercepts);
      assert j == |vs| - 1;
      WalkOutcome(m, Intercepts, SetTarget, SetTarget, "");
      if "internal" !in level {
        SetTargetSucceedsOn(vs, j);
        MissingInternalFails(m, Intercepts, SetTarget, SetTarget, "");
      }
    }
  }

  /** When the record itself intercepts activation, or stores nothing, the
      target is its own origin, and an empty origin is refused. */
  lemma OwnOriginTarget(r: ResultState, hasRuntime: bool)
    requires Intercepts(r.flags) || r.stored.None?
    ensures TargetScope(r, hasRuntime).Ok? <==> r.origin != "" && hasRuntime
    ensures TargetScope(r, hasRuntime).Ok? ==> TargetScope(r, hasRuntime).value == r.origin
  {
  }
}
