# unity-scopes-api: query lifecycle, middleware cache and result records in Dafny

The scopes runtime hosts search providers ("scopes") behind a remote-object
middleware. This project models six pieces of its core and proves properties
of them:

- **QueryObject**: the scope-side object for one query. Its `pushable` flag
  is a one-way switch. It holds a self reference until `run` creates the
  reply proxy. `run` calls the provider only while `pushable` is set. `cancel`
  tests and clears the flag, then forwards the cancellation. Completions
  (`Error` from a failed run, `Cancelled` from cancel) and `destroy` go out
  oneway.
- **ActivationQueryObject**: a one-shot run that calls `activate()`, pushes
  its response and sends `Finished`, or sends `Error`.
- **MiddlewareFactory**: a cache of middleware instances keyed by server name
  and kind string, filled lazily. `to_kind` accepts `"Zmq"` and `"REST"`.
- **ResultImpl**: a search result record. It has an attribute map, a flag
  word, an origin scope id and an optional stored (nested) result. It
  supports validating setters, a wire form
  `{"attrs": …, "internal": {flags, origin, result}}` and its reader, and
  comparison. It also walks the chain of stored results to decide whether
  activation is direct, which record receives it, and which scope it goes to.
- **find_or_throw**: a keyed lookup that fails with a formatted message.
- **Queue** of the demo scope C: a FIFO of `(query, reply)` pairs, plus the
  worker loop that pushes up to three results per query.

Layout:

| file | content |
|---|---|
| `Variants.dfy` | `Variant`, `VariantMap`, the exceptions, `Option`/`Result`, and the typed `Variant` accessors |
| `Utils.dfy` | `find_or_throw` |
| `Results.dfy` | the record as a value: flags, getters, `serialize`/`deserialize`, `compare`, `store`/`retrieve` |
| `StoredResults.dfy` | `find_stored_result` (a function and the loop), `direct_activation`, `activation_target`, and the target selection of `target_scope_proxy` |
| `ResultImpl.dfy` | the record as a class with the mutating members |
| `QueryObject.dfy` | the query state machine as a class, its step functions, and trace lemmas |
| `ActivationQueryObject.dfy` | the activation run |
| `MiddlewareFactory.dfy` | the factory as a class and its step function |
| `ScopeC.dfy` | the demo queue as a class, its trace lemmas, and the worker's push loop |

Each class method is proved against a step function on a value of its state:
`ensures State() == Step(old(State()), …)`. Properties relating several calls
are lemmas over those step functions and over sequences of operations.

Stored results: the walk over the chain of stored results reads levels from
the outermost inwards and stops at the first level that matches, at the
innermost level, or at the first level it cannot read. `Visited` lists the
levels it reads, so the lemmas about the walk make no demand on levels nested
deeper. `Levels` is the whole chain when every level is readable; it is an
independent definition tied to `Visited` by a lemma.

Flags: `ActivationNotHandled` is the zero word and `InterceptActivation` is
bit 0. The flag word is an unbounded integer. "Has the intercept bit" is
`flags % 2 == 1`. "Other bits unchanged" is `flags / 2` unchanged.

Where the code departs from what a client would expect of the protocol, the
model follows the code:

- A query cancelled before dispatch might be expected to end with `Cancelled`
  as its only completion. In the code, `cancel` before `run` finds no reply
  proxy, because `reply_proxy_` is set only by `QueryObject::run`
  (src/scopes/internal/QueryObject.cpp:110). So when the provider's cancel
  returns normally, this side sends no completion at all
  (`QueryObject.CancelBeforeRunIsSilent`). The comment at
  src/scopes/internal/QueryObject.cpp:175-180 says the client side
  short-cuts the cancellation locally and reports `Cancelled` itself.
- One terminal status per query is not enforced by the code:
  - `ActivationQueryObject::run` never consults `pushable` and never sets
    `reply_proxy_`. A cancel whose provider call returns therefore sends no
    `Cancelled`. A cancel whose provider call throws sends `Cancelled`
    (src/scopes/internal/QueryObject.cpp:172-187), and the activation then
    still sends `Finished` (`ActivationQueryObject.CancelThenActivate`).
  - The error path of `QueryObject::run` does not re-check `pushable`, so an
    `Error` can follow a `Cancelled` when the provider's run overlaps a
    cancel.
  - What is proved is the single-threaded part: with whole atomic steps at
    most one completion goes out (`QueryObject.TraceKeepsReachable`).

## Model

| member | source | states |
|---|---|---|
| Utils.FindOrThrow | src/scopes/internal/Utils.cpp:32-42 | succeeds exactly when the key is present, and then returns that key and its value; otherwise fails with InvalidArgument `context + ": missing '" + key + "' element"` |
| Utils.MissingMessageNamesKey | src/scopes/internal/Utils.cpp:37-39 | two failed lookups of different keys in the same context report different messages |
| Results.WithIntercept | src/scopes/internal/ResultImpl.cpp:143 | or-ing in the intercept bit sets it, keeps every other bit, and changes nothing when it is already set |
| Results.InterceptSet | src/scopes/internal/ResultImpl.cpp:141-149 | set_intercept_activation sets the bit, keeps the other bits, clears the origin, and keeps attributes and stored result |
| Results.Contains | src/scopes/internal/ResultImpl.cpp:353-360 | the empty key is refused with its InvalidArgument; otherwise true exactly when the key is an attribute |
| Results.Value | src/scopes/internal/ResultImpl.cpp:362-376 | succeeds exactly for a non-empty key present in the attributes, returning its value; the two failure messages for an empty and a missing key |
| Results.Lookup | src/scopes/internal/ResultImpl.cpp:296-306 | the const `operator[]` succeeds exactly when value() does, with the same value; every failure becomes the ResourceException |
| Results.SerializeInternal | src/scopes/internal/ResultImpl.cpp:396-410 | the internal map has only flags, origin and result; zero flags, an empty origin and an absent stored result are left out, the others are stored as they are |
| Results.Serialize | src/scopes/internal/ResultImpl.cpp:378-429 | succeeds exactly when uri is a string and dnd_uri, if present, is a string; the output has exactly the keys attrs and internal; the three error messages in their order of checking |
| Results.DeserializeInto | src/scopes/internal/ResultImpl.cpp:431-475 | succeeds exactly on a readable message; then flags, origin and stored result are read from internal where present and kept otherwise, and the incoming attributes are laid over the old ones, uri among them; the failures in checking order: missing internal, an ill-typed internal element, missing attrs ("Invalid variant structure"), missing uri ("Missing 'uri'"), with the attributes untouched whenever the attrs part fails; the empty key never enters |
| Results.InternalInto | src/scopes/internal/ResultImpl.cpp:433-457 | succeeds exactly when internal is a dictionary with well-typed elements, and then flags, origin and stored result are read from it where present and kept otherwise; a missing internal fails with its message and no change; a failure keeps the stored result and leaves each of flags and origin either as it was or as read; the attributes are never touched |
| Results.AttrsInto | src/scopes/internal/ResultImpl.cpp:459-475 | only the attributes change; succeeds exactly when attrs is a dictionary with a uri and no empty key, and then the attributes are the old ones with the incoming laid over them; missing attrs fails with "Invalid variant structure", missing uri with "Missing 'uri'", an empty key with operator[]'s message, each leaving the record unchanged |
| Results.DeserializeSerialize | src/scopes/internal/ResultImpl.cpp:396-475 | reading back a record's serialisation restores attributes, origin, flags and stored result exactly |
| Results.CompareIgnoresOriginAndFlags | src/scopes/internal/ResultImpl.cpp:477-495 | compare is true exactly when the records are equal once origin and flags are disregarded |
| Results.CompareRoundTrip | src/scopes/internal/ResultImpl.cpp:477-495 | a record read back from its own serialisation compares equal to it |
| Results.StoreThenRetrieve | src/scopes/internal/ResultImpl.cpp:75-100 | storing a serialisable record succeeds, leaves a stored result, and retrieve rebuilds that record; the intercept bit is set exactly when requested or already set |
| Results.StoreInto | src/scopes/internal/ResultImpl.cpp:75-86 | store succeeds exactly when the other record is serialisable, and then keeps its serialisation; a failure is serialize's exception and leaves the stored result as it was, but the intercept bit, when requested, is set and the origin cleared all the same; attributes and other flag bits are kept |
| Results.Retrieve | src/scopes/internal/ResultImpl.cpp:93-100 | with nothing stored, retrieve throws "Result: no result has been stored"; otherwise it succeeds exactly when the stored map is readable, giving a record with the stored attributes and internal elements |
| Results.FromVariantMap | src/scopes/internal/ResultImpl.cpp:40-45 | the constructor from a VariantMap succeeds exactly on a readable message, and the record then has exactly the incoming attributes and the internal elements that are present, defaults elsewhere |
| Results.AssignAsWrittenKeepsStaleStored | src/scopes/internal/ResultImpl.cpp:59-73 | as written, the assigned record compares equal to its source exactly when the source has a stored result or the target had none; otherwise it keeps the target's stale stored result |
| StoredResults.FindStoredResult | src/scopes/internal/ResultImpl.cpp:151-189 | the while loop that reassigns `stored` computes the walk: false with no callback when nothing is stored, otherwise level by level until a match or the innermost level, with the LogicException for a missing internal element |
| StoredResults.Levels | src/scopes/internal/ResultImpl.cpp:162-186 | the chain of stored results starts at the outermost level and every level in it is readable |
| StoredResults.StopIndex | src/scopes/internal/ResultImpl.cpp:163-187 | the walk stops at the first matching level, or at the innermost when none matches |
| StoredResults.VisitedShape | src/scopes/internal/ResultImpl.cpp:162-187 | the levels the walk reads: each before the last can be read, does not match and holds the next as its nested result; the walk does not go past the last, which is the first match, the innermost level or the first level it cannot read |
| StoredResults.VisitedIsChainPrefix | src/scopes/internal/ResultImpl.cpp:162-187 | on a chain whose every level is readable, the levels the walk reads are exactly the chain up to StopIndex, and it stops cleanly there |
| StoredResults.WalkOutcome | src/scopes/internal/ResultImpl.cpp:163-187 | whatever the callbacks, a successful walk stopped cleanly at the last level it read and reports whether that level matches; with callbacks that succeed on the levels it reads, it succeeds exactly when it can stop cleanly |
| StoredResults.WalkVisitsInOrder | src/scopes/internal/ResultImpl.cpp:163-187 | when the walk can stop cleanly at the last level it reads, with callbacks that record who was called on what: not_found_func on each level read before the last, in order, then found_func on the last if it matches or not_found_func if it is the innermost; a match is reported exactly when the last level matches |
| StoredResults.MissingInternalFails | src/scopes/internal/ResultImpl.cpp:163-169 | a level without internal where the walk stops, at any depth, fails with the LogicException when not_found_func succeeded on the levels before it |
| StoredResults.WalkFindsIntercept | src/scopes/internal/ResultImpl.cpp:163-187 | the walk with the intercept test succeeds exactly when it can stop cleanly at the last level it reads, and reports whether that level intercepts; on a chain whose every level is readable, a match is reported exactly when some level intercepts |
| StoredResults.DirectActivationIff | src/scopes/internal/ResultImpl.cpp:191-205 | direct_activation succeeds unless the record defers to a stored chain on which the walk cannot stop cleanly; it is true exactly when neither the record nor the level where the walk stops intercepts, which on a fully readable chain is when no level intercepts |
| StoredResults.WalkKeepsStopLevel | src/scopes/internal/ResultImpl.cpp:267-279 | with activation_target's callbacks the walk succeeds exactly when it can stop cleanly, and then holds the level where it stopped |
| StoredResults.ActivationTargetIsStopLevel | src/scopes/internal/ResultImpl.cpp:255-280 | a record that intercepts or stores nothing is its own target, its serialisation, from which it reads back; otherwise activation_target succeeds exactly when the walk can stop cleanly and is the level where it stops: the first intercepting stored level, else the innermost; whatever lies deeper is never read |
| StoredResults.TargetScope | src/scopes/internal/ResultImpl.cpp:207-252 | a target is produced exactly when the chosen origin is non-empty and a runtime is attached, and it is that origin; an empty origin or no runtime gives the LogicException "undefined target scope"; an error while choosing the origin is passed on |
| StoredResults.GetOriginReadsOrigin | src/scopes/internal/ResultImpl.cpp:216-229 | get_origin succeeds exactly on a level with a string origin in its internal element, returning it; a missing internal or a missing origin gives its LogicException |
| StoredResults.WalkTakesStopOrigin | src/scopes/internal/ResultImpl.cpp:231-243 | with target_scope_proxy's callbacks, when every level the walk reads has an origin and the walk can stop cleanly, it ends holding the origin of the level where it stopped; levels deeper than that one are never read |
| StoredResults.WalkFailsAtMissingOrigin | src/scopes/internal/ResultImpl.cpp:216-243 | the first level the walk reads without a string origin, when its flags are readable, ends the walk with get_origin's error for that level |
| StoredResults.TargetIsActivationTargetOrigin | src/scopes/internal/ResultImpl.cpp:207-280 | when every level the walk reads has an origin, target_scope_proxy's target and activation_target both succeed exactly when the walk can stop cleanly, and the target is the origin of the very record activation_target returns, whatever lies deeper in the chain |
| StoredResults.TargetFailsAtMissingOrigin | src/scopes/internal/ResultImpl.cpp:163-252 | when a level the walk reads lacks a string origin, target_scope_proxy fails: with get_origin's error for the first such level (the 'origin' element missing LogicException when the key is absent), or with find_stored_result's missing 'internal' LogicException when that level has no internal element; activation_target succeeds exactly when the walk can stop cleanly |
| StoredResults.OwnOriginTarget | src/scopes/internal/ResultImpl.cpp:207-250 | a record that intercepts or stores nothing targets its own origin, and only when that origin is non-empty and a runtime is attached |
| ResultImpl.ResultImpl.constructor | src/scopes/internal/ResultImpl.cpp:34-38 | a new record has no attributes, an empty origin, ActivationNotHandled flags, nothing stored and no runtime |
| ResultImpl.ResultImpl.Copy | src/scopes/internal/ResultImpl.cpp:47-57 | the copy constructor copies every field, the stored result included |
| ResultImpl.ResultImpl.Assign | src/scopes/internal/ResultImpl.cpp:59-73 | corrected assignment: the new state is exactly the source's, so the two compare equal |
| ResultImpl.ResultImpl.SetRuntime | src/scopes/internal/ResultImpl.cpp:102-106 | attaches a runtime and changes nothing else |
| ResultImpl.ResultImpl.SetOrigin | src/scopes/internal/ResultImpl.cpp:108-115 | an empty scope id is refused with its InvalidArgument and no change; otherwise only the origin changes |
| ResultImpl.ResultImpl.SetUri | src/scopes/internal/ResultImpl.cpp:117-124 | an empty uri is refused with no change; otherwise only the uri attribute changes, and uri() returns it |
| ResultImpl.ResultImpl.SetTitle | src/scopes/internal/ResultImpl.cpp:126-129 | only the title attribute changes, and title() returns it |
| ResultImpl.ResultImpl.SetArt | src/scopes/internal/ResultImpl.cpp:131-134 | only the art attribute changes, and art() returns it |
| ResultImpl.ResultImpl.SetDndUri | src/scopes/internal/ResultImpl.cpp:136-139 | only the dnd_uri attribute changes, and dnd_uri() returns it |
| ResultImpl.ResultImpl.SetInterceptActivation | src/scopes/internal/ResultImpl.cpp:141-149 | the intercept bit is set, the other bits are kept, and the origin is cleared |
| ResultImpl.ResultImpl.Index | src/scopes/internal/ResultImpl.cpp:287-294 | the empty key is refused; a present key gives its value unchanged; a missing key is inserted with a default value |
| ResultImpl.ResultImpl.Put | src/scopes/internal/ResultImpl.cpp:287-294 | assignment through `operator[]`: refuses the empty key, otherwise sets exactly that attribute, so the empty key never enters |
| ResultImpl.ResultImpl.Store | src/scopes/internal/ResultImpl.cpp:75-86 | storing self is refused with no change; otherwise optional intercept bit, then the other record's serialisation is kept |
| ResultImpl.ResultImpl.Deserialize | src/scopes/internal/ResultImpl.cpp:431-475 | the in-place reader has the effect and the error of DeserializeInto, partial updates included |
| ResultImpl.ResultImpl.ReadInternal | src/scopes/internal/ResultImpl.cpp:433-457 | flags, origin and stored result are each assigned as read, stopping at the first ill-typed element |
| ResultImpl.ResultImpl.CopyAttrs | src/scopes/internal/ResultImpl.cpp:471-474 | the copy loop leaves the old attributes overridden by the incoming ones, and nothing else changes |
| QueryObject.QueryObject.constructor | src/scopes/internal/QueryObject.cpp:47-52 | the three-argument constructor: pushable, no self held, no reply proxy, cardinality 0, nothing sent |
| QueryObject.QueryObject.WithCardinality | src/scopes/internal/QueryObject.cpp:54-64 | pushable, no self held, no reply proxy, the given cardinality, nothing sent |
| QueryObject.QueryObject.SetSelf | src/scopes/internal/QueryObject.cpp:217-224 | requires no self held, then holds it |
| QueryObject.QueryObject.Run | src/scopes/internal/QueryObject.cpp:79-143 | the method performs the run step: the gate on pushable, reply proxy, dropping self, disconnect, provider call, and the Error completion on a throw |
| QueryObject.QueryObject.Cancel | src/scopes/internal/QueryObject.cpp:145-189 | the method performs the cancel step: test and clear pushable, the provider's cancel, and the Cancelled completion |
| QueryObject.QueryObject.Pushable | src/scopes/internal/QueryObject.cpp:191-195 | returns the pushable flag |
| QueryObject.QueryObject.Cardinality | src/scopes/internal/QueryObject.cpp:197-201 | returns the cardinality |
| QueryObject.QueryObject.Destroy | src/scopes/internal/QueryObject.cpp:66-77 | the destructor always sends destroy on the control proxy |
| QueryObject.CancelIdempotent | src/scopes/internal/QueryObject.cpp:145-155 | a second cancel has no effect at all |
| QueryObject.CancelWhenNotPushable | src/scopes/internal/QueryObject.cpp:150-153 | cancel on an unpushable query calls nothing and sends nothing |
| QueryObject.CancelSendsCancelled | src/scopes/internal/QueryObject.cpp:145-189 | cancel clears pushable and calls the provider's cancel once; Cancelled is sent exactly when that cancel threw or the reply proxy is still alive; no other completion |
| QueryObject.RunAfterCancelSkipsProvider | src/scopes/internal/QueryObject.cpp:91-96 | run on an unpushable query only drops self and disconnects: no provider call, no completion |
| QueryObject.RunCallsProviderOnce | src/scopes/internal/QueryObject.cpp:98-142 | run on a pushable query records the reply proxy, drops self, disconnects and calls the provider once; it stays pushable exactly when the provider returned; a throw sends one Error with `"QueryBase::run(): " + what` or `"QueryBase::run(): unknown exception"`; a return sends nothing |
| QueryObject.PushableNeverRises | src/scopes/internal/QueryObject.cpp:61-154 | over any sequence of calls, pushable never goes back to true, the cardinality never changes, and the log of sent messages only grows |
| QueryObject.TraceKeepsReachable | src/scopes/internal/QueryObject.cpp:79-189 | over any sequence of whole calls: no provider run after its cancel, at most one completion, and a completion or cancel leaves the query unpushable |
| QueryObject.UnpushableStaysSilent | src/scopes/internal/QueryObject.cpp:66-153 | once pushable is false, any sequence of calls keeps it false and sends only disconnects and the destroy |
| QueryObject.CancelBeforeRunIsSilent | src/scopes/internal/QueryObject.cpp:98-170 | from any pushable query without a reply proxy, a cancel whose provider cancel returns sends no completion, and no later sequence of calls reaches the provider's run or sends a completion |
| ActivationQueryObject.ActivationQueryObject.constructor | src/scopes/internal/ActivationQueryObject.cpp:39-43 | builds the QueryObject part with cardinality 0 |
| ActivationQueryObject.ActivationQueryObject.Run | src/scopes/internal/ActivationQueryObject.cpp:50-80 | the method performs the activation run step |
| ActivationQueryObject.ActivationQueryObject.Destroy | src/scopes/internal/ActivationQueryObject.cpp:45-48 | destruction sends destroy through the QueryObject destructor |
| ActivationQueryObject.ActivationIgnoresPushable | src/scopes/internal/ActivationQueryObject.cpp:50-64 | whatever pushable is, the run drops self, disconnects and calls activate; pushable, reply proxy and cardinality are untouched |
| ActivationQueryObject.ActivationReportsOutcome | src/scopes/internal/ActivationQueryObject.cpp:59-79 | exactly one completion; a push happens exactly when activate returned, once, with its response, before Finished; a throw sends Error with its text or "unknown exception" |
| ActivationQueryObject.CancelThenActivate | src/scopes/internal/ActivationQueryObject.cpp:50-66 | for any pushable activation that has not run, a cancel followed by run still calls the provider's activate, pushes its response and sends Finished; Cancelled precedes it exactly when the provider's cancel throws |
| MiddlewareFactory.ToKind | src/internal/MiddlewareFactory.cpp:113-129 | succeeds exactly for "Zmq" and "REST"; anything else fails with ConfigException `"Invalid middleware kind: " + kind` |
| MiddlewareFactory.ToKindInvertsKindName | src/internal/MiddlewareFactory.cpp:113-129 | to_kind maps each kind name to its kind, and accepts no string other than those names |
| MiddlewareFactory.FindUnlocked | src/internal/MiddlewareFactory.cpp:106-111 | the instance cached under (server name, kind), or none exactly when no entry exists |
| MiddlewareFactory.MiddlewareFactory.Open | src/internal/MiddlewareFactory.cpp:43-56 | an unreadable configuration fails with ConfigException naming the file; otherwise an empty cache |
| MiddlewareFactory.MiddlewareFactory.Create | src/internal/MiddlewareFactory.cpp:62-98 | the method performs the create step and keeps the cache consistent |
| MiddlewareFactory.MiddlewareFactory.Find | src/internal/MiddlewareFactory.cpp:100-104 | changes nothing; the cached instance, or none exactly when the key is absent |
| MiddlewareFactory.CreateCached | src/internal/MiddlewareFactory.cpp:66-73 | a cached key returns the cached instance and constructs nothing |
| MiddlewareFactory.CreateInvalidKindUnchanged | src/internal/MiddlewareFactory.cpp:75-95 | an unknown kind fails with its ConfigException and leaves the cache and the constructions unchanged |
| MiddlewareFactory.CreateNewInserts | src/internal/MiddlewareFactory.cpp:77-97 | a new Zmq key constructs one new instance, different from every cached one, caches it under that key only, and find returns it |
| MiddlewareFactory.CreateKeepsValid | src/internal/MiddlewareFactory.cpp:62-98 | every cached instance was constructed for its key's server, and no two keys share an instance, before and after create |
| MiddlewareFactory.CreateIdempotent | src/internal/MiddlewareFactory.cpp:62-111 | a second create with the same key returns the same instance and changes nothing |
| MiddlewareFactory.KindsAreSeparate | src/internal/MiddlewareFactory.cpp:94-95 | the same server name with two different kinds gives two different instances |
| ScopeC.FirstMatch | demo/scope-C.cpp:73-74 | std::find under QueryData's operator== stops at the first entry with that reply, whatever its query, or at the end |
| ScopeC.RemovedErasesFirstMatch | demo/scope-C.cpp:70-84 | remove leaves the list unchanged exactly when no entry has that reply; otherwise it erases one entry, the first with that reply, and keeps the rest in order |
| ScopeC.Queue.constructor | demo/scope-C.cpp:96-99 | an empty queue, not done |
| ScopeC.Queue.Put | demo/scope-C.cpp:42-49 | appends the pair at the tail and keeps done |
| ScopeC.Queue.Get | demo/scope-C.cpp:51-68 | with the wait as precondition: when done, false and no change; otherwise the head is removed and returned |
| ScopeC.Queue.Remove | demo/scope-C.cpp:70-84 | the list becomes the list with the first entry for that reply erased |
| ScopeC.Queue.Finish | demo/scope-C.cpp:86-94 | empties the list and sets done |
| ScopeC.FifoOrder | demo/scope-C.cpp:34-68 | with puts and gets only, the pairs handed out followed by those still queued are the initial pairs followed by those put, in order |
| ScopeC.FinishIsFinal | demo/scope-C.cpp:51-94 | once done, every later get returns false and nothing more is handed out |
| ScopeC.ServeQuery | demo/scope-C.cpp:188-197 | the worker pushes result texts 0, 1, 2 in order, stops right after the first push that returns false, and pushes at most three |

## Left out

- Mutexes, condition variables and thread pools. Each locked method is one atomic step, so the overlap of a provider's run with a cancel is not expressible.
- Provider code: the provider's run, cancel and activate. Each is an outcome parameter (returns, throws with a message, throws something else).
- Transport: disconnect, the oneway finished and destroy calls, and pushes. Each is an entry in a log of messages.
- QueryObject.QueryObject.Run: SearchReplyImpl's construction (query string, department id, cardinality) is not modelled; the reply proxy is a flag.
- QueryObject.QueryObject.Cancel: whether the weak reply proxy can still be locked is a parameter.
- QueryObject.QueryObject.SetSelf: the self reference is a flag, so the non-null check is not modelled.
- QueryObject.TraceKeepsReachable: holds for whole atomic steps only, which is weaker than one terminal status per query. Completions sent by the reply proxy after a normal return are not part of this source.
- Logging to the runtime's logger and to cerr/cout.
- StoredResults.TargetScope: the conversion of the target string into a scope proxy, `string_to_proxy`, is a foreign call; the model stops at the string.
- MiddlewareFactory.MiddlewareFactory.Open: parsing the configuration file is a parameter saying whether it succeeds.
- MiddlewareFactory.MiddlewareFactory.Create: construction of ZmqMiddleware is a fresh identifier. The abort for a new REST middleware is a precondition.
- The implementation of the typed Variant accessors (`get_dict`, `get_int`, `get_string`) is not among the files modelled. `Variants.GetDict`, `Variants.GetInt` and `Variants.GetString` return the held value, and every type mismatch becomes one TypeMismatch error without its message.
- Variants.Variant: a double is held as its IEEE 754 bit pattern, so NaN compares equal to itself and +0 differs from -0, unlike the C++ `==` on doubles.
- Results.WithIntercept: the flag word is an unbounded integer, not a 32-bit int.
- ActivationQueryObject.ActivationQueryObject.Run: the activation response and its serialisation are one opaque VariantMap.
- Results.DeserializeInto: the order in which the attribute loop visits keys is taken from std::map: the empty key, being least, is refused before any entry is copied.
- The getters `uri`, `title`, `art`, `dnd_uri`, `origin`, `flags` and `has_stored_result` are read as functions or fields of the state; their results are stated through the setters' contracts.
- ScopeC.ServeQuery: the outer worker loop, `sleep`, and `MyQuery`/`MyScope` plumbing are not modelled; push results are a parameter of three booleans.
- `uncamelcase` is not part of this model; its implementation is not among the files modelled.
- Header-only interfaces (ScopeBase, ActivationResponse, CategoryRenderer, configuration headers, JsonCppNode, SmartScope and the HTTP client) and the ZmqScope stub are not part of this model.

## Findings

| source | as written | input that shows it | evidently intended | confidence | as-written member | corrected member |
|---|---|---|---|---|---|---|
| src/scopes/internal/ResultImpl.cpp:59-73 | `operator=` copies the stored result only when `other` has one | assign a record with no stored result to a record that has one: the stale stored result survives, and compare() of the result with its source is false | assignment makes an exact copy, like the copy constructor at lines 47-57 | not executed; follows from the code as read | Results.AssignAsWrittenKeepsStaleStored | ResultImpl.ResultImpl.Assign |
