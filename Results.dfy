/** The value of a result record: its attribute map, flag word, origin scope id
    and optional stored (nested) result, with the pure operations the record
    offers over that value: getters, the wire form and its reader, comparison. */
module Results {
  import opened Variants

  /** The two flag values the core uses: activation not handled (the default,
      the zero word) and the intercept-activation bit (bit 0). */
  const ActivationNotHandled: int := 0
  const InterceptActivation: int := 1

  /** `flags & InterceptActivation` is non-zero. Dafny's `%` leaves the
      low bit of the two's-complement word, negative words included. */
  predicate Intercepts(flags: int)
  {
    flags % 2 == 1
  }

  /** `flags | InterceptActivation`. */
  function WithIntercept(flags: int): (r: int)
    ensures Intercepts(r)
    ensures r / 2 == flags / 2
    ensures Intercepts(flags) ==> r == flags
  {
    if flags % 2 == 0 then flags + 1 else flags
  }

  datatype ResultState = ResultState(
    attrs: VariantMap,
    origin: string,
    flags: int,
    stored: Option<VariantMap>)

  /** A freshly constructed record. */
  const Default := ResultState(map[], "", ActivationNotHandled, None)

  /** The record's invariant: no attribute is ever kept under the empty key. */
  predicate ValidAttrs(attrs: VariantMap)
  {
    "" !in attrs
  }

  /** set_intercept_activation: or-in the intercept bit and clear the origin. */
  function InterceptSet(r: ResultState): (s: ResultState)
    ensures Intercepts(s.flags) && s.flags / 2 == r.flags / 2
    ensures s.origin == ""
    ensures s.attrs == r.attrs && s.stored == r.stored
  {
    r.(flags := WithIntercept(r.flags), origin := "")
  }

  // ---------------------------------------------------------------- getters

  /** The string held under `name`, or "" when absent or not a string
      (uri, title, art, dnd_uri). */
  function StringAttr(attrs: VariantMap, name: string): string
  {
    if name in attrs && attrs[name].Str? then attrs[name].s else ""
  }

  function Uri(r: ResultState): string { StringAttr(r.attrs, "uri") }
  function Title(r: ResultState): string { StringAttr(r.attrs, "title") }
  function Art(r: ResultState): string { StringAttr(r.attrs, "art") }
  function DndUri(r: ResultState): string { StringAttr(r.attrs, "dnd_uri") }

  /** contains(key). */
  function Contains(r: ResultState, key: string): (b: Result<bool>)
    ensures key == "" <==> b.Err?
    ensures b.Err? ==> b.error == InvalidArgument("Result::contains(): Invalid empty key string")
    ensures b.Ok? ==> (b.value <==> key in r.attrs)
  {
    if key == "" then Err(InvalidArgument("Result::contains(): Invalid empty key string"))
    else Ok(key in r.attrs)
  }

  /** value(key). */
  function Value(r: ResultState, key: string): (v: Result<Variant>)
    ensures v.Ok? <==> key != "" && key in r.attrs
    ensures v.Ok? ==> v.value == r.attrs[key]
    ensures key == "" ==> v == Err(InvalidArgument("Result::value(): invalid empty key string"))
    ensures key != "" && key !in r.attrs ==>
              v == Err(InvalidArgument("Result::value(): requested key " + key + " doesn't exist"))
  {
    if key == "" then Err(InvalidArgument("Result::value(): invalid empty key string"))
    else if key in r.attrs then Ok(r.attrs[key])
    else Err(InvalidArgument("Result::value(): requested key " + key + " doesn't exist"))
  }

  /** The const `operator[]`: value(key), with every failure replaced by a
      ResourceException. */
  function Lookup(r: ResultState, key: string): (v: Result<Variant>)
    ensures v.Ok? <==> Value(r, key).Ok?
    ensures v.Ok? ==> v.value == r.attrs[key]
    ensures v.Err? ==> v.error == Resource("Result::operator[]: Cannot locate value for key")
  {
    match Value(r, key)
    case Ok(x) => Ok(x)
    case Err(_) => Err(Resource("Result::operator[]: Cannot locate value for key"))
  }

  /** retrieve() with nothing stored throws; otherwise it rebuilds a record
      from the stored serialisation (see FromVariantMap below). */
  function Retrieve(r: ResultState): (x: Result<ResultState>)
    ensures r.stored.None? ==> x == Err(InvalidArgument("Result: no result has been stored"))
    ensures r.stored.Some? ==> (x.Ok? <==> InternalReadable(r.stored.value) && AttrsReadable(r.stored.value))
    ensures x.Ok? ==> x.value.attrs == r.stored.value["attrs"].d
                      && InternalRead(Default, r.stored.value["internal"].d, x.value)
  {
    if r.stored.None? then Err(InvalidArgument("Result: no result has been stored"))
    else FromVariantMap(r.stored.value)
  }

  // ---------------------------------------------------------- serialisation

  /** What serialize() demands of the attributes: a string "uri", and
      "dnd_uri", if present, a string. */
  predicate Serializable(attrs: VariantMap)
  {
    && "uri" in attrs && attrs["uri"].Str?
    && ("dnd_uri" in attrs ==> attrs["dnd_uri"].Str?)
  }

  /** serialize_internal: zero flags, an empty origin and an absent stored
      result are left out. */
  function SerializeInternal(r: ResultState): (m: VariantMap)
    ensures m.Keys <= {"flags", "origin", "result"}
    ensures "flags" in m <==> r.flags != 0
    ensures "flags" in m ==> m["flags"] == Int(r.flags)
    ensures "origin" in m <==> r.origin != ""
    ensures "origin" in m ==> m["origin"] == Str(r.origin)
    ensures "result" in m <==> r.stored.Some?
    ensures "result" in m ==> m["result"] == Dict(r.stored.value)
  {
    var withFlags: VariantMap := if r.flags != 0 then map["flags" := Int(r.flags)] else map[];
    var withOrigin := if r.origin != "" then withFlags["origin" := Str(r.origin)] else withFlags;
    if r.stored.Some? then withOrigin["result" := Dict(r.stored.value)] else withOrigin
  }

  /** serialize(): {"attrs": attrs, "internal": {flags, origin, result}}. */
  function Serialize(r: ResultState): (m: Result<VariantMap>)
    ensures m.Ok? <==> Serializable(r.attrs)
    ensures m.Ok? ==> m.value.Keys == {"attrs", "internal"}
    ensures m.Ok? ==> m.value["attrs"] == Dict(r.attrs)
    ensures m.Ok? ==> m.value["internal"] == Dict(SerializeInternal(r))
    ensures "uri" !in r.attrs ==> m == Err(InvalidArgument("ResultItem: missing required attribute: uri"))
    ensures "uri" in r.attrs && !r.attrs["uri"].Str? ==>
              m == Err(InvalidArgument("ResultItem: wrong type of attribute: uri"))
    ensures "uri" in r.attrs && r.attrs["uri"].Str? && "dnd_uri" in r.attrs && !r.attrs["dnd_uri"].Str? ==>
              m == Err(InvalidArgument("ResultItem: wrong type of attribute: dnd_uri"))
  {
    if "uri" !in r.attrs then Err(InvalidArgument("ResultItem: missing required attribute: uri"))
    else if !r.attrs["uri"].Str? then Err(InvalidArgument("ResultItem: wrong type of attribute: uri"))
    else if "dnd_uri" in r.attrs && !r.attrs["dnd_uri"].Str? then
      Err(InvalidArgument("ResultItem: wrong type of attribute: dnd_uri"))
    else
      Ok(map["attrs" := Dict(r.attrs), "internal" := Dict(SerializeInternal(r))])
  }

  /** What deserialize() leaves behind: it updates the record field by field,
      so a failure part-way keeps the updates made before it. */
  datatype Deserialized = Deserialized(state: ResultState, error: Option<Exception>)

  /** An "internal" element deserialize() reads in full: a dictionary whose
      "flags", "origin" and "result", where present, are an integer, a string
      and a dictionary. */
  predicate InternalReadable(v: VariantMap)
  {
    && "internal" in v && v["internal"].Dict?
    && ("flags" in v["internal"].d ==> v["internal"].d["flags"].Int?)
    && ("origin" in v["internal"].d ==> v["internal"].d["origin"].Str?)
    && ("result" in v["internal"].d ==> v["internal"].d["result"].Dict?)
  }

  /** An "attrs" element deserialize() accepts: a dictionary with a "uri"
      entry and no entry under the empty key. */
  predicate AttrsReadable(v: VariantMap)
  {
    "attrs" in v && v["attrs"].Dict? && "uri" in v["attrs"].d && "" !in v["attrs"].d
  }

  /** `s` holds what a complete read of `internal` leaves in `r`: each element
      present replaces its field, a missing one keeps the field as it was. */
  predicate InternalRead(r: ResultState, internal: VariantMap, s: ResultState)
    requires "flags" in internal ==> internal["flags"].Int?
    requires "origin" in internal ==> internal["origin"].Str?
    requires "result" in internal ==> internal["result"].Dict?
  {
    && s.flags == (if "flags" in internal then internal["flags"].i else r.flags)
    && s.origin == (if "origin" in internal then internal["origin"].s else r.origin)
    && s.stored == (if "result" in internal then Some(internal["result"].d) else r.stored)
  }

  /** `attrs` is `before` with `incoming` laid over it: every incoming entry
      with its incoming value, every other entry of `before` as it was, and
      nothing else. */
  predicate LaidOver(before: VariantMap, incoming: VariantMap, attrs: VariantMap)
  {
    && attrs.Keys == before.Keys + incoming.Keys
    && (forall k :: k in incoming ==> attrs[k] == incoming[k])
    && (forall k :: k in before && k !in incoming ==> attrs[k] == before[k])
  }

  /** deserialize(var) applied to the record `r`: it succeeds exactly on a
      readable message, and then reads "internal" into flags, origin and
      stored result and lays the incoming attributes over the old ones. The
      failures, in the order they are checked: no "internal", an ill-typed
      internal element, no "attrs", no "uri" among them, an empty key. */
  function DeserializeInto(r: ResultState, v: VariantMap): (d: Deserialized)
    ensures ValidAttrs(r.attrs) ==> ValidAttrs(d.state.attrs)
    ensures d.error.None? <==> InternalReadable(v) && AttrsReadable(v)
    ensures d.error.None? ==>
              InternalRead(r, v["internal"].d, d.state) && LaidOver(r.attrs, v["attrs"].d, d.state.attrs)
    ensures d.error.None? ==> "uri" in d.state.attrs && d.state.attrs["uri"] == v["attrs"].d["uri"]
    ensures "internal" !in v ==> d == Deserialized(r, Some(InvalidArgument("Missing 'internal' element'")))
    ensures "internal" in v && !InternalReadable(v) ==> d.error == Some(TypeMismatch) && d.state.attrs == r.attrs
    ensures InternalReadable(v) && "attrs" !in v ==>
              d.error == Some(InvalidArgument("Invalid variant structure"))
    ensures InternalReadable(v) && "attrs" in v && v["attrs"].Dict? && "uri" !in v["attrs"].d ==>
              d.error == Some(InvalidArgument("Missing 'uri'"))
    ensures !AttrsReadable(v) ==> d.state.attrs == r.attrs
  {
    var d := InternalInto(r, v);
    if d.error.Some? then d else AttrsInto(d.state, v)
  }

  /** The "internal" half of deserialize(): flags, origin and stored result,
      each assigned as soon as it is read. */
  function InternalInto(r: ResultState, v: VariantMap): (d: Deserialized)
    ensures d.state.attrs == r.attrs
    ensures d.error.None? <==> InternalReadable(v)
    ensures d.error.None? ==> InternalRead(r, v["internal"].d, d.state)
    ensures "internal" !in v ==> d == Deserialized(r, Some(InvalidArgument("Missing 'internal' element'")))
    ensures "internal" in v && d.error.Some? ==> d.error == Some(TypeMismatch)
    ensures d.error.Some? ==> d.state.stored == r.stored
    ensures "internal" in v && v["internal"].Dict? ==>
              var internal := v["internal"].d;
              && (d.state.flags == r.flags || ("flags" in internal && internal["flags"].Int? && d.state.flags == internal["flags"].i))
              && (d.state.origin == r.origin || ("origin" in internal && internal["origin"].Str? && d.state.origin == internal["origin"].s))
  {
    if "internal" !in v then Deserialized(r, Some(InvalidArgument("Missing 'internal' element'")))
    else if !v["internal"].Dict? then Deserialized(r, Some(TypeMismatch))
    else
      var internal := v["internal"].d;
      if "flags" in internal && !internal["flags"].Int? then Deserialized(r, Some(TypeMismatch))
      else
        var r1 := if "flags" in internal then r.(flags := internal["flags"].i) else r;
        if "origin" in internal && !internal["origin"].Str? then Deserialized(r1, Some(TypeMismatch))
        else
          var r2 := if "origin" in internal then r1.(origin := internal["origin"].s) else r1;
          if "result" in internal && !internal["result"].Dict? then Deserialized(r2, Some(TypeMismatch))
          else
            var r3 := if "result" in internal then r2.(stored := Some(internal["result"].d)) else r2;
            Deserialized(r3, None)
  }

  /** The "attrs" half of deserialize(): each entry is assigned through
      `operator[]`, which refuses the empty key. A std::map visits its keys in
      ascending order and "" is the least string, so that refusal comes before
      any entry is copied. */
  function AttrsInto(r: ResultState, v: VariantMap): (d: Deserialized)
    ensures d.state.(attrs := r.attrs) == r
    ensures d.error.Some? ==> d.state == r
    ensures d.error.None? <==> AttrsReadable(v)
    ensures d.error.None? ==> LaidOver(r.attrs, v["attrs"].d, d.state.attrs)
    ensures d.error.None? ==> "uri" in d.state.attrs && d.state.attrs["uri"] == v["attrs"].d["uri"]
    ensures ValidAttrs(r.attrs) ==> ValidAttrs(d.state.attrs)
    ensures "attrs" !in v ==> d.error == Some(InvalidArgument("Invalid variant structure"))
    ensures "attrs" in v && !v["attrs"].Dict? ==> d.error == Some(TypeMismatch)
    ensures "attrs" in v && v["attrs"].Dict? && "uri" !in v["attrs"].d ==>
              d.error == Some(InvalidArgument("Missing 'uri'"))
    ensures "attrs" in v && v["attrs"].Dict? && "uri" in v["attrs"].d && "" in v["attrs"].d ==>
              d.error == Some(InvalidArgument("Result::operator[]: Invalid empty key string"))
  {
    if "attrs" !in v then Deserialized(r, Some(InvalidArgument("Invalid variant structure")))
    else if !v["attrs"].Dict? then Deserialized(r, Some(TypeMismatch))
    else
      var attrs := v["attrs"].d;
      if "uri" !in attrs then Deserialized(r, Some(InvalidArgument("Missing 'uri'")))
      else if "" in attrs then Deserialized(r, Some(InvalidArgument("Result::operator[]: Invalid empty key string")))
      else Deserialized(r.(attrs := r.attrs + attrs), None)
  }

  /** The constructor from a VariantMap: a default record, then deserialize.
      It succeeds exactly on a readable message, and the record then has the
      incoming attributes and the internal elements that are present. */
  function FromVariantMap(v: VariantMap): (x: Result<ResultState>)
    ensures x.Ok? <==> InternalReadable(v) && AttrsReadable(v)
    ensures x.Ok? ==> x.value.attrs == v["attrs"].d && InternalRead(Default, v["internal"].d, x.value)
    ensures "internal" !in v ==> x == Err(InvalidArgument("Missing 'internal' element'"))
  {
    var d := DeserializeInto(Default, v);
    if d.error.Some? then Err(d.error.value) else Ok(d.state)
  }

  /** Reading back what serialize() wrote restores the attributes, the origin,
      the flags and the stored result. */
  lemma {:induction false} DeserializeSerialize(r: ResultState)
    requires ValidAttrs(r.attrs) && Serializable(r.attrs)
    ensures Serialize(r).Ok? && FromVariantMap(Serialize(r).value) == Ok(r)
  {
    var m := Serialize(r).value;
    var internal := SerializeInternal(r);
    assert m["internal"] == Dict(internal);
    var r1 := if "flags" in internal then Default.(flags := internal["flags"].i) else Default;
    assert r1.flags == r.flags;
    var r2 := if "origin" in internal then r1.(origin := internal["origin"].s) else r1;
    assert r2.origin == r.origin;
    var r3 := if "result" in internal then r2.(stored := Some(internal["result"].d)) else r2;
    assert r3 == r.(attrs := map[]);
    assert map[] + r.attrs == r.attrs;
    assert InternalInto(Default, m) == Deserialized(r3, None);
  }

  /** compare(): attributes and stored results, ignoring origin and flags. */
  predicate Compare(a: ResultState, b: ResultState)
  {
    a.attrs == b.attrs && a.stored == b.stored
  }

  /** Two records compare equal exactly when they are the same record once the
      origin and the flags are disregarded. */
  lemma CompareIgnoresOriginAndFlags(a: ResultState, b: ResultState)
    ensures Compare(a, b) <==> a.(origin := b.origin, flags := b.flags) == b
  {
  }

  /** A record read back from its own serialisation compares equal to it. */
  lemma {:induction false} CompareRoundTrip(r: ResultState)
    requires ValidAttrs(r.attrs) && Serializable(r.attrs)
    ensures FromVariantMap(Serialize(r).value).Ok?
    ensures Compare(FromVariantMap(Serialize(r).value).value, r)
  {
    DeserializeSerialize(r);
  }

  /** store(other, intercept) on a record other than `other` itself: optionally
      set the intercept bit, then keep other's serialisation, which can fail
      after the bit has been set. Returns the failure, if any, and the new state. */
  function StoreInto(self: ResultState, other: ResultState, interceptActivation: bool): (res: (Option<Exception>, ResultState))
    ensures res.0.None? <==> Serializable(other.attrs)
    ensures res.0.Some? ==> Serialize(other) == Err(res.0.value) && res.1.stored == self.stored
    ensures res.0.None? ==> res.1.stored == Some(Serialize(other).value)
    ensures res.1.attrs == self.attrs
    ensures Intercepts(res.1.flags) <==> interceptActivation || Intercepts(self.flags)
    ensures res.1.flags / 2 == self.flags / 2
    ensures res.1.origin == if interceptActivation then "" else self.origin
  {
    var s := if interceptActivation then InterceptSet(self) else self;
    match Serialize(other)
    case Err(e) => (Some(e), s)
    case Ok(m) => (None, s.(stored := Some(m)))
  }

  /** After a successful store, a stored result is present and retrieve()
      rebuilds the stored record. */
  lemma {:induction false} StoreThenRetrieve(self: ResultState, other: ResultState, interceptActivation: bool)
    requires ValidAttrs(other.attrs) && Serializable(other.attrs)
    ensures StoreInto(self, other, interceptActivation).0.None?
    ensures StoreInto(self, other, interceptActivation).1.stored.Some?
    ensures Retrieve(StoreInto(self, other, interceptActivation).1) == Ok(other)
    ensures Intercepts(StoreInto(self, other, interceptActivation).1.flags) <==>
              interceptActivation || Intercepts(self.flags)
  {
    DeserializeSerialize(other);
  }

  /** `operator=` as written: every field is copied, but the stored result only
      when `other` has one, so a stale stored result survives the assignment. */
  function AssignedAsWritten(self: ResultState, other: ResultState): ResultState
  {
    if other.stored.Some? then other else other.(stored := self.stored)
  }

  /** The inputs that show it: the assigned record compares equal to its source
      exactly when the source has a stored result or the target had none, so
      assigning a record without a stored result to one that has one leaves a
      record that does not compare equal to its source. */
  lemma AssignAsWrittenKeepsStaleStored(self: ResultState, other: ResultState)
    ensures Compare(AssignedAsWritten(self, other), other) <==> other.stored.Some? || self.stored.None?
    ensures self.stored.Some? && other.stored.None? ==> AssignedAsWritten(self, other).stored == self.stored
  {
  }
}
