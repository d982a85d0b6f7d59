/** The result record as the object the runtime mutates in place: validating
    setters, store, deserialize and assignment. Its read-only members are the
    functions of Results and StoredResults applied to State(). */
module ResultImpl {
  import opened Variants
  import opened Results

  class ResultImpl {
    var attrs: VariantMap
    var origin: string
    var flags: int
    var stored: Option<VariantMap>
    /** Whether a runtime has been attached (runtime_ != nullptr). */
    var hasRuntime: bool

    function State(): ResultState
      reads this
    {
      ResultState(attrs, origin, flags, stored)
    }

    ghost predicate Valid()
      reads this
    {
      ValidAttrs(attrs)
    }

    constructor ()
      ensures Valid() && State() == Default && !hasRuntime
    {
      attrs := map[];
      origin := "";
      flags := ActivationNotHandled;
      stored := None;
      hasRuntime := false;
    }

    /** The copy constructor: an exact copy, stored result included. */
    constructor Copy(other: ResultImpl)
      requires other.Valid()
      ensures Valid() && State() == other.State() && hasRuntime == other.hasRuntime
    {
      attrs := other.attrs;
      origin := other.origin;
      flags := other.flags;
      hasRuntime := other.hasRuntime;
      stored := other.stored;
    }

    /** Copy assignment, with the stored result replaced in every case (the
        as-written operator keeps a stale one: Results.AssignedAsWritten). */
    method Assign(other: ResultImpl)
      requires Valid() && other.Valid()
      modifies this
      ensures Valid()
      ensures State() == old(other.State()) && hasRuntime == old(other.hasRuntime)
      ensures Compare(State(), old(other.State()))
    {
      if other != this {
        attrs := other.attrs;
        flags := other.flags;
        origin := other.origin;
        hasRuntime := other.hasRuntime;
        stored := other.stored;
      }
    }

    method SetRuntime()
      modifies this
      ensures hasRuntime && State() == old(State())
    {
      hasRuntime := true;
    }

    method SetOrigin(scopeId: string) returns (err: Option<Exception>)
      requires Valid()
      modifies this
      ensures Valid() && hasRuntime == old(hasRuntime)
      ensures scopeId == "" ==>
                err == Some(InvalidArgument("Result::set_origin(): Invalid empty scope_id string"))
                && State() == old(State())
      ensures scopeId != "" ==> err.None? && State() == old(State()).(origin := scopeId)
    {
      if scopeId == "" {
        return Some(InvalidArgument("Result::set_origin(): Invalid empty scope_id string"));
      }
      origin := scopeId;
      return None;
    }

    method SetUri(uri: string) returns (err: Option<Exception>)
      requires Valid()
      modifies this
      ensures Valid() && hasRuntime == old(hasRuntime)
      ensures uri == "" ==>
                err == Some(InvalidArgument("Result::set_uri(): Invalid empty uri string"))
                && State() == old(State())
      ensures uri != "" ==> err.None? && State() == old(State()).(attrs := old(attrs)["uri" := Str(uri)])
      ensures uri != "" ==> Uri(State()) == uri
    {
      if uri == "" {
        return Some(InvalidArgument("Result::set_uri(): Invalid empty uri string"));
      }
      attrs := attrs["uri" := Str(uri)];
      return None;
    }

    method SetTitle(title: string)
      requires Valid()
      modifies this
      ensures Valid() && hasRuntime == old(hasRuntime)
      ensures State() == old(State()).(attrs := old(attrs)["title" := Str(title)])
      ensures Title(State()) == title
    {
      attrs := attrs["title" := Str(title)];
    }

    method SetArt(art: string)
      requires Valid()
      modifies this
      ensures Valid() && hasRuntime == old(hasRuntime)
      ensures State() == old(State()).(attrs := old(attrs)["art" := Str(art)])
      ensures Art(State()) == art
    {
      attrs := attrs["art" := Str(art)];
    }

    method SetDndUri(dndUri: string)
      requires Valid()
      modifies this
      ensures Valid() && hasRuntime == old(hasRuntime)
      ensures State() == old(State()).(attrs := old(attrs)["dnd_uri" := Str(dndUri)])
      ensures DndUri(State()) == dndUri
    {
      attrs := attrs["dnd_uri" := Str(dndUri)];
    }

    /** set_intercept_activation: the intercept bit is set, the other bits are
        kept, and the origin is cleared. */
    method SetInterceptActivation()
      requires Valid()
      modifies this
      ensures Valid() && hasRuntime == old(hasRuntime)
      ensures State() == InterceptSet(old(State()))
      ensures Intercepts(flags) && flags / 2 == old(flags) / 2 && origin == ""
    {
      flags := WithIntercept(flags);
      origin := "";
    }

    /** The non-const `operator[]`: refuses the empty key; otherwise the entry
        under `key`, a default (Null) one being inserted when absent. */
    method Index(key: string) returns (v: Result<Variant>)
      requires Valid()
      modifies this
      ensures Valid() && hasRuntime == old(hasRuntime)
      ensures key == "" ==>
                v == Err(InvalidArgument("Result::operator[]: Invalid empty key string")) && State() == old(State())
      ensures key != "" && key in old(attrs) ==> v == Ok(old(attrs)[key]) && State() == old(State())
      ensures key != "" && key !in old(attrs) ==>
                v == Ok(Null) && State() == old(State()).(attrs := old(attrs)[key := Null])
    {
      if key == "" {
        return Err(InvalidArgument("Result::operator[]: Invalid empty key string"));
      }
      if key !in attrs {
        attrs := attrs[key := Null];
      }
      return Ok(attrs[key]);
    }

    /** `r[key] = value` through the non-const `operator[]`. */
    method Put(key: string, value: Variant) returns (err: Option<Exception>)
      requires Valid()
      modifies this
      ensures Valid() && hasRuntime == old(hasRuntime)
      ensures key == "" ==>
                err == Some(InvalidArgument("Result::operator[]: Invalid empty key string")) && State() == old(State())
      ensures key != "" ==> err.None? && State() == old(State()).(attrs := old(attrs)[key := value])
    {
      if key == "" {
        return Some(InvalidArgument("Result::operator[]: Invalid empty key string"));
      }
      attrs := attrs[key := value];
      return None;
    }

    /** store(other, intercept): refuses to store the record into itself;
        otherwise optionally sets the intercept bit and keeps other's
        serialisation. */
    method Store(other: ResultImpl, interceptActivation: bool) returns (err: Option<Exception>)
      requires Valid()
      modifies this
      ensures Valid() && hasRuntime == old(hasRuntime)
      ensures other == this ==>
                err == Some(InvalidArgument("Result:: cannot store self")) && State() == old(State())
      ensures other != this ==> (err, State()) == StoreInto(old(State()), old(other.State()), interceptActivation)
    {
      if other == this {
        return Some(InvalidArgument("Result:: cannot store self"));
      }
      if interceptActivation {
        SetInterceptActivation();
      }
      var m := Serialize(other.State());
      if m.Err? {
        return Some(m.error);
      }
      stored := Some(m.value);
      return None;
    }

    /** deserialize(var): the "internal" fields first, each as it is read, then
        every attribute copied in through `operator[]`. */
    method Deserialize(v: VariantMap) returns (err: Option<Exception>)
      requires Valid()
      modifies this
      ensures Valid() && hasRuntime == old(hasRuntime)
      ensures Deserialized(State(), err) == DeserializeInto(old(State()), v)
    {
      err := ReadInternal(v);
      if err.Some? {
        return;
      }
      if "attrs" !in v {
        return Some(InvalidArgument("Invalid variant structure"));
      }
      if !v["attrs"].Dict? {
        return Some(TypeMismatch);
      }
      var incoming := v["attrs"].d;
      if "uri" !in incoming {
        return Some(InvalidArgument("Missing 'uri'"));
      }
      // The first key a std::map visits is its least, so an empty key fails
      // before any entry is copied.
      if "" in incoming {
        return Some(InvalidArgument("Result::operator[]: Invalid empty key string"));
      }
      CopyAttrs(incoming);
    }

    /** The "internal" half of deserialize. */
    method ReadInternal(v: VariantMap) returns (err: Option<Exception>)
      requires Valid()
      modifies this
      ensures Valid() && hasRuntime == old(hasRuntime)
      ensures Deserialized(State(), err) == InternalInto(old(State()), v)
    {
      if "internal" !in v {
        return Some(InvalidArgument("Missing 'internal' element'"));
      }
      if !v["internal"].Dict? {
        return Some(TypeMismatch);
      }
      var resvar := v["internal"].d;
      if "flags" in resvar {
        if !resvar["flags"].Int? {
          return Some(TypeMismatch);
        }
        flags := resvar["flags"].i;
      }
      if "origin" in resvar {
        if !resvar["origin"].Str? {
          return Some(TypeMismatch);
        }
        origin := resvar["origin"].s;
      }
      if "result" in resvar {
        if !resvar["result"].Dict? {
          return Some(TypeMismatch);
        }
        stored := Some(resvar["result"].d);
      }
      return None;
    }

    /** The attribute loop of deserialize: every entry assigned through
        `operator[]`, later entries overriding what the record held. */
    method CopyAttrs(incoming: VariantMap)
      requires Valid() && ValidAttrs(incoming)
      modifies this
      ensures Valid() && hasRuntime == old(hasRuntime)
      ensures State() == old(State()).(attrs := old(attrs) + incoming)
    {
      var keys := incoming.Keys;
      while keys != {}
        invariant keys <= incoming.Keys
        invariant State() == old(State()).(attrs := attrs) && hasRuntime == old(hasRuntime)
        invariant attrs == old(attrs) + map k | k in incoming && k !in keys :: incoming[k]
        invariant ValidAttrs(attrs)
        decreases keys
      {
        var k :| k in keys;
        var _ := Put(k, incoming[k]);
        keys := keys - {k};
      }
      assert attrs == old(attrs) + incoming;
    }
  }
}
