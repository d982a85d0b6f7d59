/** The middleware factory: a cache of middleware instances keyed by server
    name and kind string, filled lazily by create(). An instance is identified
    by the index of its construction, so "the same instance" is equality of
    identifiers. */
module MiddlewareFactory {
  import opened Variants

  datatype Kind = Zmq | REST

  /** to_kind: the closed set of kind names. */
  function ToKind(kind: string): (r: Result<Kind>)
    ensures r.Ok? <==> kind == "Zmq" || kind == "REST"
    ensures r.Err? ==> r.error == Config("Invalid middleware kind: " + kind)
  {
    if kind == "Zmq" then Ok(Zmq)
    else if kind == "REST" then Ok(REST)
    else Err(Config("Invalid middleware kind: " + kind))
  }

  /** The name to_kind accepts for each kind. */
  function KindName(k: Kind): string
  {
    match k
    case Zmq => "Zmq"
    case REST => "REST"
  }

  /** to_kind accepts exactly the kind names, each for its own kind. */
  lemma ToKindInvertsKindName(k: Kind, kind: string)
    ensures ToKind(KindName(k)) == Ok(k)
    ensures ToKind(kind).Ok? ==> KindName(ToKind(kind).value) == kind
  {
  }

  /** The cache key. */
  datatype MiddlewareData = MiddlewareData(serverName: string, kind: string)

  /** What a ZmqMiddleware was constructed with. */
  datatype Construction = Construction(serverName: string, configfile: string)

  /** mw_map_, and every middleware constructed so far, indexed by id. */
  datatype FactoryState = FactoryState(mwMap: map<MiddlewareData, nat>, constructed: seq<Construction>)

  const Empty := FactoryState(map[], [])

  /** Every cached id names a middleware constructed for that key's server,
      and no two keys share one. */
  ghost predicate FactoryValid(s: FactoryState)
  {
    && (forall d :: d in s.mwMap ==> s.mwMap[d] < |s.constructed| && s.constructed[s.mwMap[d]].serverName == d.serverName)
    && (forall d1, d2 :: d1 in s.mwMap && d2 in s.mwMap && s.mwMap[d1] == s.mwMap[d2] ==> d1 == d2)
  }

  /** find_unlocked: the cached instance, or none (a null pointer). */
  function FindUnlocked(s: FactoryState, serverName: string, kind: string): (r: Option<nat>)
    ensures r.Some? <==> MiddlewareData(serverName, kind) in s.mwMap
    ensures r.Some? ==> r.value == s.mwMap[MiddlewareData(serverName, kind)]
  {
    var d := MiddlewareData(serverName, kind);
    if d in s.mwMap then Some(s.mwMap[d]) else None
  }

  /** create: the cached instance if there is one; otherwise validate the
      kind, construct a new instance and cache it. A new REST middleware
      aborts the process, so callers must not ask for one. */
  function CreateStep(s: FactoryState, serverName: string, kind: string, configfile: string): (Result<nat>, FactoryState)
    requires MiddlewareData(serverName, kind) in s.mwMap || kind != "REST"
  {
    var cached := FindUnlocked(s, serverName, kind);
    if cached.Some? then (Ok(cached.value), s)
    else
      var k := ToKind(kind);
      if k.Err? then (Err(k.error), s)
      else
        var id := |s.constructed|;
        (Ok(id), FactoryState(s.mwMap[MiddlewareData(serverName, kind) := id],
                              s.constructed + [Construction(serverName, configfile)]))
  }

  class MiddlewareFactory {
    var mwMap: map<MiddlewareData, nat>
    var constructed: seq<Construction>

    function State(): FactoryState
      reads this
    {
      FactoryState(mwMap, constructed)
    }

    ghost predicate Valid()
      reads this
    {
      FactoryValid(State())
    }

    constructor ()
      ensures Valid() && State() == Empty
    {
      mwMap := map[];
      constructed := [];
    }

    /** The constructor: fails with a ConfigException when the configuration
        file cannot be read (`configParses` stands for that outcome). */
    static method Open(configfile: string, configParses: bool) returns (f: MiddlewareFactory?, err: Option<Exception>)
      ensures configParses ==> err.None? && f != null && fresh(f) && f.Valid() && f.State() == Empty
      ensures !configParses ==>
                f == null && err == Some(Config("cannot instantiate MiddlewareFactory: config file: " + configfile))
    {
      if !configParses {
        return null, Some(Config("cannot instantiate MiddlewareFactory: config file: " + configfile));
      }
      f := new MiddlewareFactory();
      err := None;
    }

    method Create(serverName: string, kind: string, configfile: string) returns (r: Result<nat>)
      requires Valid()
      requires MiddlewareData(serverName, kind) in mwMap || kind != "REST"
      modifies this
      ensures Valid()
      ensures (r, State()) == CreateStep(old(State()), serverName, kind, configfile)
    {
      var d := MiddlewareData(serverName, kind);
      var mw := Find(serverName, kind);
      if mw.Some? {
        return Ok(mw.value);
      }
      var k := ToKind(kind);
      if k.Err? {
        return Err(k.error);
      }
      var id := |constructed|;
      constructed := constructed + [Construction(serverName, configfile)];
      mwMap := mwMap[d := id];
      r := Ok(id);
      CreateKeepsValid(old(State()), serverName, kind, configfile);
    }

    method Find(serverName: string, kind: string) returns (r: Option<nat>)
      ensures r.Some? <==> MiddlewareData(serverName, kind) in mwMap
      ensures r.Some? ==> r.value == mwMap[MiddlewareData(serverName, kind)]
    {
      var d := MiddlewareData(serverName, kind);
      if d in mwMap {
        r := Some(mwMap[d]);
      } else {
        r := None;
      }
    }
  }

  /** A cached key is returned as it is, and nothing is constructed. */
  lemma CreateCached(s: FactoryState, serverName: string, kind: string, configfile: string)
    requires MiddlewareData(serverName, kind) in s.mwMap
    ensures CreateStep(s, serverName, kind, configfile) == (Ok(s.mwMap[MiddlewareData(serverName, kind)]), s)
  {
  }

  /** An unknown kind fails before anything is inserted. */
  lemma CreateInvalidKindUnchanged(s: FactoryState, serverName: string, kind: string, configfile: string)
    requires MiddlewareData(serverName, kind) !in s.mwMap
    requires kind != "Zmq" && kind != "REST"
    ensures CreateStep(s, serverName, kind, configfile) == (Err(Config("Invalid middleware kind: " + kind)), s)
  {
  }

  /** A new Zmq key constructs one new instance for its server name, caches it
      under that key only, and find then returns it. */
  lemma CreateNewInserts(s: FactoryState, serverName: string, configfile: string)
    requires FactoryValid(s)
    requires MiddlewareData(serverName, "Zmq") !in s.mwMap
    ensures var (r, t) := CreateStep(s, serverName, "Zmq", configfile);
            && r.Ok?
            && (forall d :: d in s.mwMap ==> s.mwMap[d] != r.value)
            && t.constructed == s.constructed + [Construction(serverName, configfile)]
            && FindUnlocked(t, serverName, "Zmq") == Some(r.value)
            && (forall sn, k :: (sn, k) != (serverName, "Zmq") ==> FindUnlocked(t, sn, k) == FindUnlocked(s, sn, k))
  {
  }

  lemma CreateKeepsValid(s: FactoryState, serverName: string, kind: string, configfile: string)
    requires FactoryValid(s)
    requires MiddlewareData(serverName, kind) in s.mwMap || kind != "REST"
    ensures FactoryValid(CreateStep(s, serverName, kind, configfile).1)
  {
  }

  /** A second create with the same key returns the same instance and changes
      nothing. */
  lemma {:induction false} CreateIdempotent(s: FactoryState, serverName: string, kind: string, c1: string, c2: string)
    requires MiddlewareData(serverName, kind) in s.mwMap || kind != "REST"
    requires CreateStep(s, serverName, kind, c1).0.Ok?
    ensures var (r1, t1) := CreateStep(s, serverName, kind, c1);
            CreateStep(t1, serverName, kind, c2) == (r1, t1)
  {
    var (r1, t1) := CreateStep(s, serverName, kind, c1);
    assert MiddlewareData(serverName, kind) in t1.mwMap;
    CreateCached(t1, serverName, kind, c2);
  }

  /** A successful create caches its key at the id it returns and keeps every
      key cached before at its old id. */
  lemma CreateCaches(s: FactoryState, serverName: string, kind: string, configfile: string)
    requires MiddlewareData(serverName, kind) in s.mwMap || kind != "REST"
    requires CreateStep(s, serverName, kind, configfile).0.Ok?
    ensures var (r, t) := CreateStep(s, serverName, kind, configfile);
            && MiddlewareData(serverName, kind) in t.mwMap && t.mwMap[MiddlewareData(serverName, kind)] == r.value
            && (forall d :: d in s.mwMap ==> d in t.mwMap && t.mwMap[d] == s.mwMap[d])
  {
  }

  /** The same server name with two different kinds gives two different
      instances. */
  lemma {:induction false} KindsAreSeparate(s: FactoryState, serverName: string, k1: string, k2: string, c1: string, c2: string)
    requires FactoryValid(s) && k1 != k2
    requires MiddlewareData(serverName, k1) in s.mwMap || k1 != "REST"
    requires CreateStep(s, serverName, k1, c1).0.Ok?
    requires var t1 := CreateStep(s, serverName, k1, c1).1;
             MiddlewareData(serverName, k2) in t1.mwMap || k2 != "REST"
    ensures var (r1, t1) := CreateStep(s, serverName, k1, c1);
            var (r2, t2) := CreateStep(t1, serverName, k2, c2);
            r2.Ok? ==> r1.value != r2.value
  {
    var (r1, t1) := CreateStep(s, serverName, k1, c1);
    CreateKeepsValid(s, serverName, k1, c1);
    CreateCaches(s, serverName, k1, c1);
    var (r2, t2) := CreateStep(t1, serverName, k2, c2);
    if r2.Ok? {
      CreateKeepsValid(t1, serverName, k2, c2);
      CreateCaches(t1, serverName, k2, c2);
      var d1 := MiddlewareData(serverName, k1);
      var d2 := MiddlewareData(serverName, k2);
      assert d1 != d2;
      assert d1 in t2.mwMap && d2 in t2.mwMap;
    }
  }
}
