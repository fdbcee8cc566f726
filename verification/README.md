# Gortexa: verified models of its engines

Gortexa is a Go framework for gRPC services. This project models the parts of it that are small engines with
state, concurrency or a language of their own, and proves what they promise over every input, every run or
every reachable state. `dafny verify dfyconfig.toml` checks all of it.

| file | models |
|---|---|
| `CircuitBreaker.dfy` | the per-method breaker: episodes, probe slots, stale completions |
| `RespCodec.dfy` | the RESP2 printer and parser, and the buffered line reader under it |
| `RespPool.dfy` | the bounded Redis connection pool, down to the bytes on each connection |
| `RespPoolUse.dfy` | how `Do` uses the pool: setup of connections, retries, what becomes of replies and connections |
| `ToolSchema.dfy`, `OpenAiSchema.dfy` | descriptors to tool schema to OpenAI strict form, with a semantics over JSON |
| `ErrorRegistry.dfy` | the error table, resolution of any error, and gRPC hops; also the breaker's verdict on a call |
| `MqShutdown.dfy` | the shutdown protocol of both message-queue clients; subject matching |
| `Paging.dfy` | keyset paging over a store that changes between pages |
| `HealthCache.dfy`, `KeySetCache.dfy`, `MemoryCache.dfy` | three caches that must agree with something simpler |
| `Order.dfy`, `Common.dfy` | byte-wise string order and sorting; an option type |

How the models are built:

- Code that updates fields under a lock is a class; each method is one critical section and is proved equal to a
  step function. A run is a sequence of events `es` with the states `ss` it goes through (`IsRun`), in any
  interleaving, and the main results quantify over all runs and all positions in them.
- Time is a clock reading passed into a step; readings do not decrease. Map iteration is in any order. Handlers,
  fetches, sockets, health checks, randomness and context cancellation are free choices of the environment.
- A panic at registration is a `false` or `None` result that changes nothing.

## What does not hold, and exactly when it does

- **A reply that is cut short can be taken for a whole one.** The line reader of Go's `bufio` package reports an
  interruption (end of stream, reset, deadline) only if no byte of the fragment it is reading precedes it.
  `readLine` passes the unterminated line on, so a server that answers `:1234` and stalls after `:12` is reported to
  have answered 12 (`RespCodec.CutReplyExample`), and the connection is parked with the rest still to come, where
  the next caller is given it as its own reply (`RespPool.CutReplyReachesNextCaller`).
  `RespCodec.CutReplyExact` states for every reply, every cut and every buffer size which cuts are accepted and when
  the value is then right. A read is *harmless* if the whole answer has arrived, or the cut is not an accepted one,
  or it falls just before the line terminator; that depends on the answer and the cut alone.
  `RespPool.ReadsMatchExactly`: in a run of the pool every read reports the answer to the command just written if
  and only if every read is harmless. `RespPool.RepliesMatchExactly`: given harmless reads in the dials, every reply
  that `Do` gives to any caller is right if and only if every read of a command is harmless. The comment in
  internal/resp/client.go:266-267 assumes that every such interruption is an error.
- **Carrying a category over a hop needs a condition on the registry.** `ErrorRegistry.HopExact`: every error
  survives a hop if and only if the internal category is registered or its code is unused, and a category with an
  empty name owns no code that another one shares. Every table with the internal category and no empty name is
  covered (`SeedIsHopSafe`), the default one included; `UnsafeSeedExample` is a table that is not.
- **The OpenAI rendering can drop a requirement, in two ways.** A oneof member is never listed as required, also
  when it is marked `ai_field.required`, and also when the validation rules refuse to leave it unset.
  `OpenAiSchema.RequiredOneofExample` and `DemandedOneofExample` are descriptors for the one and the other.
  Reading null as unset, the rendering means no more than the schema if and only if no property of the first kind
  exists at any depth (`OpenAiSchema.SoundExactlyWhen`), what it accepts has every property that validation refuses
  to leave unset if and only if none of the second kind does (`SuppliesExactlyWhen`), and both hold if and only if
  there is neither (`NothingDroppedExactlyWhen`). Tools flagged strict have no oneofs.

## Model

| member | source | states |
|---|---|---|
| CircuitBreaker.WithDefaults | interceptor/circuitbreaker.go:217-231 | limits that are set are kept, one probe and five seconds stand in for the others, and the result is usable exactly when the breaker is enabled |
| CircuitBreaker.Breaker.Allow | interceptor/circuitbreaker.go:87-123 | one admission: the new state and the admission, as the step function that the run results are about, and the reported change of phase |
| CircuitBreaker.Breaker.Record | interceptor/circuitbreaker.go:129-191 | one completion: the new state, and whether the phase changed |
| CircuitBreaker.BreakerSet.Get | interceptor/circuitbreaker.go:233-242 | the method's own breaker, created closed on first use, never shared between methods |
| CircuitBreaker.ProbesCountOutstanding | interceptor/circuitbreaker.go:101-143 | in every interleaving, while half-open the counter equals the outstanding probes of the episode and is within the limit; otherwise there are none; the guard on the decrement is always true |
| CircuitBreaker.FailuresCountCurrentEpisode | interceptor/circuitbreaker.go:155-177 | while closed, the counter is the trailing run of failures among non-neutral completions of calls admitted into this episode, and below the limit |
| CircuitBreaker.TripsExactlyAtTheLimit | interceptor/circuitbreaker.go:159-177 | a completion opens a closed breaker if and only if with it the episode ends in exactly maxFailures failures |
| CircuitBreaker.AdmittedExactlyWhen | interceptor/circuitbreaker.go:87-123 | when a call is admitted, in terms of the calls that are outstanding |
| CircuitBreaker.ArrivalsJoinEpisodes | interceptor/circuitbreaker.go:87-123 | in every run: a closed breaker admits without changing, the first call after a cool-down is the only probe of a new episode stamped with its time, later ones join while there is room, and a call turned away leaves no trace |
| CircuitBreaker.ProbesResolveEpisodes | interceptor/circuitbreaker.go:129-182 | in every run: a half-open episode closes exactly on the success of one of its own outstanding probes, opens from that moment exactly on the failure of one, and no other completion changes a half-open or open breaker |
| CircuitBreaker.LateArrivalAdmitted | interceptor/circuitbreaker.go:106-118 | probes that never report cannot wedge a method |
| CircuitBreaker.NothingAdmittedWhileOpen | interceptor/circuitbreaker.go:92-100 | no call that arrives within openFor of any opening is admitted, and the breaker does not change meanwhile |
| CircuitBreaker.EpisodesApart | interceptor/circuitbreaker.go:92-118 | any two half-open episodes of a run start at least openFor apart |
| CircuitBreaker.StaleCompletionsIrrelevant | interceptor/circuitbreaker.go:125-182 | deleting every completion of an earlier-episode call from a run gives a run that ends in the same breaker state |
| CallVerdict.VerdictSurvivesHops | interceptor/circuitbreaker.go:261-281 | the verdict on an error is the same after any number of hops |
| CallVerdict.VerdictFollowsCategory | interceptor/circuitbreaker.go:19-30 | with the default table a domain error, however wrapped, is a failure exactly for server faults, and for client faults moves neither phase nor count in any state |
| CallVerdict.VerdictOnContext | interceptor/circuitbreaker.go:261-281 | with the default table an expired deadline from further down is a failure and a cancellation is neutral |
| CallVerdict.VerdictWithoutError | interceptor/circuitbreaker.go:261-268 | a call whose caller walked away moves neither phase nor count in any state, and a call without an error clears the count or closes the episode |
| RespCodec.ParseInt | internal/resp/resp.go:153-179 | the loop in 64-bit arithmetic, with the exact error, never overflows |
| RespCodec.ParseIntExact | internal/resp/resp.go:153-179 | success if and only if an optional sign, at least one digit and a magnitude below 2^63; then the number denoted |
| RespCodec.ParseFaultsExactly | internal/resp/resp.go:153-179 | exactly which error is reported for which input |
| RespCodec.ParseInvertsFormat | internal/resp/resp.go:153-179 | parsing undoes decimal printing except for the smallest 64-bit integer, which is refused |
| RespCodec.WriteCommand | internal/resp/resp.go:39-68 | on success the bytes, read by an independent reader of counted arrays of length-prefixed strings, give one string for each argument that stands for it; and what is written before an unsupported argument |
| RespCodec.CommandConveys | internal/resp/resp.go:39-68 | the same whatever follows on the connection: text and raw bytes are themselves, integers of any size are signed decimals of the number |
| RespCodec.CommandReadsBack | internal/resp/resp.go:36-68 | reading a command gives back its strings and leaves what follows |
| RespCodec.CommandUnique | internal/resp/resp.go:36-68 | commands are uniquely decodable for arbitrary argument bytes and whatever follows |
| RespCodec.Reader.ReadLine | internal/resp/resp.go:131-151 | the accumulation loop over fragments, for every buffer size |
| RespCodec.LineIgnoresFragments | internal/resp/resp.go:131-151 | a terminated line is the bytes up to the first LF less one CR, or too long, however it was cut into fragments |
| RespCodec.Reader.ReadReply | internal/resp/resp.go:72-128 | one reply and what remains of the stream |
| RespCodec.ReplyReadsBack | internal/resp/resp.go:72-128 | a well-formed reply is read back as its meaning and consumes exactly its own bytes |
| RespCodec.StreamReadsBack | internal/resp/resp.go:72-128 | a concatenation of well-formed replies is read one for one |
| RespCodec.RepliesAreSound | internal/resp/resp.go:72-151 | whatever is accepted as a reply, from any server, is a mark, text and a line end, or a length, that many bytes and CRLF, within the limits; its value is what those bytes say and nothing more is consumed |
| RespCodec.CutReplyExact | internal/resp/resp.go:72-151 | for every well-formed reply, every cut and every buffer size: exactly when an interrupted read still succeeds, and that its value is then wrong unless only the terminator was missing |
| RespCodec.PlainCutAccepted | internal/resp/resp.go:131-151 | inside a status or error line without a CR, exactly the cuts that do not fall on a multiple of the buffer size are accepted |
| RespCodec.StrayTerminatorFails | internal/resp/resp.go:72-95 | a left-over line terminator in front of anything, cut anywhere, is never read as a reply |
| RespCodec.CutReplyExample | internal/resp/resp.go:85-86 | a concrete cut reply that is reported as another number |
| RespPool.EffectiveSize | internal/resp/client.go:53-56 | a positive pool size is kept and any other becomes ten |
| RespPool.Client.TakeToken | internal/resp/client.go:190-194 | the semaphore is bounded by the pool size |
| RespPool.Client.CheckOut | internal/resp/client.go:195-207 | refuse, reuse the last parked connection, or dial |
| RespPool.Client.Park | internal/resp/client.go:225-233 | park unless closed |
| RespPool.Client.Shut | internal/resp/client.go:329-338 | close once and take the whole idle list |
| RespPool.PoolBounded | internal/resp/client.go:186-235 | in every run of Do and Close: open or dialing connections within the pool size, each in one pair of hands or once in the idle list, none parked that is tainted, none parked after Close, and a release never blocks |
| RespPool.TokensReleasedOnce | internal/resp/client.go:189-235 | on every path and at every point a caller has released all tokens it took but the one it holds |
| RespPool.RepliesMatchCommands | internal/resp/client.go:131-272 | in every interleaving and at every point before which all reads were harmless, each reply held or returned is the server's answer to that caller's own command, and a parked connection has read as many replies as it sent commands |
| RespPool.ReadMatchesExactly | internal/resp/client.go:176-183 | one read in a state that harmless reads lead to: it reports the answer to the command just written if and only if it is harmless |
| RespPool.ReadsMatchExactly | internal/resp/client.go:99-183 | over every run, dials included: all reads report the answer to the command just written if and only if all reads are harmless |
| RespPool.RepliesMatchExactly | internal/resp/client.go:131-272 | over every run with harmless reads in its dials: all replies that Do gives are right if and only if all reads of commands are harmless |
| RespPool.CutReplyReachesNextCaller | internal/resp/client.go:215-272 | a run in which a cut reply is accepted, the connection is parked, and the next caller, whose own answer arrives whole, is given the rest of it |
| RespPoolUse.CommandsFollowSetup | internal/resp/client.go:98-123 | in every run no command goes out on a connection before all setup commands of the client have, in order |
| RespPoolUse.SetupWasAccepted | internal/resp/client.go:110-121 | while reads are harmless, a connection that carries a command had every setup command answered, and none with an error |
| RespPoolUse.RetriesExactlyWhen | internal/resp/client.go:237-272 | in every run an attempt may be followed by another if and only if it broke off, other than by a timeout, on a connection from the idle list |
| RespPoolUse.SecondCommandsExplained | internal/resp/client.go:237-258 | every command on the wire is of a first or second attempt, and of a second only if the first broke off in that way |
| RespPoolUse.ReadRepliesAreReturned | internal/resp/client.go:176-272 | a reply that was read is what Do returns, and the command is not tried again |
| RespPoolUse.CheckoutsExactly | internal/resp/client.go:189-213 | in every run a caller is given nothing after Close, else the connection parked last, else a new one on which the whole setup is to be done |
| RespPoolUse.ParkedExactlyWhen | internal/resp/client.go:215-272 | in every run a connection is parked if and only if its round trip ended in a reply, server errors included, its cancel hook has not fired and the client is open |
| RespPoolUse.TaintedNeverIdle | internal/resp/client.go:137-147 | a connection whose cancel hook fired in any round trip is never idle again |
| ToolSchema.SchemaForMessage | mcp/ir.go:179-227 | the loop over fields and oneofs builds the schema or stops at the first fault |
| ToolSchema.SchemaAcceptsExactly | mcp/ir.go:179-306 | a built schema accepts a JSON value if and only if the value has the JSON form of the message, defined from the descriptor alone: arrays for lists, objects for maps and messages, the protojson form of every scalar and well-known type, required names present |
| ToolSchema.PropsAreFields | mcp/ir.go:187-213 | every property is the schema of the field of that name, with the field's own description if it has one |
| ToolSchema.NameSetsExactly | mcp/ir.go:198-225 | exactly which names are required, demanded by validation, and members of a real oneof |
| ToolSchema.UnsetRefusedExactly | mcp/ir.go:109-135 | a field counts as demanded if and only if its validation rules do not pass it unset |
| ToolSchema.BuildSucceedsExactly | mcp/ir.go:179-306 | on every graph, cyclic or not, success if and only if no chain of nested messages is longer than eight and none reaches a Value or Any field |
| ToolSchema.RecursiveTypesRefused | mcp/ir.go:179-185 | any input from which a recursive type is reachable is refused |
| ToolSchema.MessageIr | mcp/ir.go:179-306 | what every built schema looks like: keywords where they apply, name sets within the properties |
| OpenAiSchema.RenderOpenAi | mcp/downgrade.go:104-152 | the rendering loop, in any order of properties |
| OpenAiSchema.RenderEachProp | mcp/downgrade.go:133-148 | every property rendered once, null allowed only on a schema that still has a single type, and the required names |
| OpenAiSchema.RenderingSound | mcp/downgrade.go:104-161 | where no required property is a oneof member, a value the rendering accepts is, without its unset properties, accepted by the schema and has what validation demands outside of oneofs, and padding restores it |
| OpenAiSchema.RenderingSupplies | mcp/downgrade.go:114-147 | where validation demands no oneof member, such a value has every property that validation refuses to leave unset |
| OpenAiSchema.RenderingComplete | mcp/downgrade.go:104-161 | an accepted value that supplies what validation demands outside of oneofs can be padded with nulls into one the rendering accepts, and dropping them gives it back |
| OpenAiSchema.RenderingExact | mcp/downgrade.go:104-161 | where no required property is a oneof member, the rendering accepts exactly the padded forms of the values that the schema accepts and that supply what validation demands outside of oneofs |
| OpenAiSchema.RequiredOneofBreaks | mcp/downgrade.go:138-145 | where a required property is a oneof member, a value the rendering accepts and the schema refuses |
| OpenAiSchema.RequiredOneofExample | mcp/ir.go:198-225 | a descriptor whose rendering accepts an empty object that its schema refuses |
| OpenAiSchema.SoundExactlyWhen | mcp/downgrade.go:133-148 | the exact condition under which the rendering means no more than the schema |
| OpenAiSchema.DemandedOneofLacks | mcp/downgrade.go:138-145 | where validation demands a oneof member at any depth, a value the rendering accepts without it |
| OpenAiSchema.DemandedOneofExample | mcp/ir.go:114-133 | a descriptor whose rendering and schema accept an empty object that lacks a field required by validation |
| OpenAiSchema.SuppliesExactlyWhen | mcp/downgrade.go:119-120 | the exact condition under which what the rendering accepts has every property that validation refuses to leave unset |
| OpenAiSchema.NothingDroppedExactlyWhen | mcp/downgrade.go:114-148 | both requirements are kept if and only if neither is made of a oneof member at any depth |
| OpenAiSchema.StrictExactly | mcp/downgrade.go:84-102 | the strict flag is true if and only if every object of the rendering is closed and requires all its properties |
| OpenAiSchema.StrictToolsMeanTheSame | mcp/downgrade.go:72-82 | from descriptors on: for tools flagged strict, what may be sent is, without its nulls, exactly the JSON form of the message that leaves nothing unset which validation demands |
| ErrorRegistry.Registry.Register | apperr/errors.go:166-179 | both tables after a registration, or a panic that leaves them alone |
| ErrorRegistry.Registry.NewRegistry | apperr/errors.go:142-148 | seeding registers row by row |
| ErrorRegistry.BuildExact | apperr/errors.go:154-179 | seeding succeeds if and only if categories are distinct and codes real; the tables then hold exactly those rows |
| ErrorRegistry.OwnerIsFirst | apperr/errors.go:159-178 | a code belongs to the first category registered for it |
| ErrorRegistry.DomainResolves | apperr/errors.go:196-217 | an error whose first domain error in unwrapping order has a registered category other than internal resolves to that row, with its own message exactly if the category may speak and there is one; otherwise to the internal row |
| ErrorRegistry.ContextResolves | apperr/errors.go:218-223 | without a domain error, an expired deadline anywhere decides, and after it a cancellation |
| ErrorRegistry.StatusErrorResolves | apperr/errors.go:224-282 | without either, the first status resolves to the category that its first valid detail names, or else the owner of its code, and forwards its message only if that category may speak |
| ErrorRegistry.OthersResolve | apperr/errors.go:250-252 | anything else is internal |
| ErrorRegistry.DefaultDomainReplies | apperr/errors.go:58-77 | with the default table a domain error is reported under its own code, HTTP status and retryability on all three transports, with one message |
| ErrorRegistry.DefaultContextReplies | apperr/errors.go:254-262 | with the default table context errors are 504 and retryable, or 499 and not |
| ErrorRegistry.DefaultRowIs | apperr/errors.go:58-77 | each default row is named after its gRPC code and has the HTTP status and retryability of it |
| ErrorRegistry.DefaultsCoverCodes | apperr/errors.go:58-77 | every code but OK and Unknown has a default row |
| ErrorRegistry.HopKeeps | apperr/errors.go:198-300 | in a safe registry, resolving the status of any error gives the same row and message, even when categories share a code |
| ErrorRegistry.HopLoses | apperr/errors.go:264-300 | in any other registry, an error that comes out in another category |
| ErrorRegistry.UnsafeSeedExample | apperr/errors.go:142-179 | a table that registers and is not safe |
| ErrorRegistry.HopExact | apperr/errors.go:264-300 | the exact condition on the registry |
| ErrorRegistry.HopsKeepReplies | apperr/errors.go:284-312 | HTTP and MCP results and the status are unchanged by any number of hops |
| ErrorRegistry.SeedIsHopSafe | apperr/errors.go:142-179 | the internal category and no empty name suffice |
| ErrorRegistry.DefaultIsHopSafe | apperr/errors.go:58-77 | the default table registers and is safe |
| ErrorRegistry.NothingLeaks | apperr/errors.go:196-252 | blanking every text a client may not see leaves no such text and changes nothing a client sees, through any wrapping |
| MqShutdown.Client.Register | mq/jetstream.go:294-304 | list and count a watcher unless closed |
| MqShutdown.Client.BeginHandler | mq/jetstream.go:329-337 | count a handler unless closed |
| MqShutdown.Client.Sweep | mq/jetstream.go:363-375 | close once and take all listed subscriptions |
| MqShutdown.BackoffStep | mq/jetstream.go:356-360 | the backoff index follows the delivery count, stays at the last step beyond it, and is the first for an unknown count |
| MqShutdown.RedeliveryBacksOff | mq/jetstream.go:347-361 | delays never shrink as deliveries grow, and only a bad message is terminated |
| MqShutdown.SettlementFollowsOutcome | mq/jetstream.go:327-361 | in every run a settled delivery was settled after its handler returned, as the outcome calls for: acked on success, terminated for a bad message, else asked for again after 1, 5, 30, 60 or 300 seconds |
| MqShutdown.OpenClientServes | mq/jetstream.go:294-340 | in every run a delivery starts its handler and a subscription is listed and watched exactly while the client is open |
| MqShutdown.NothingStartsAfterClose | mq/nats.go:179-191 | once the flag is set no handler starts and neither wait group grows |
| MqShutdown.ConnClosesLast | mq/jetstream.go:363-385 | from the closing of the connection on, forever, every handler has finished and settled and every watcher has left |
| MqShutdown.SettlesOnOpenConn | mq/jetstream.go:376-383 | a handler that is running or settling still has the connection |
| MqShutdown.NoSubscriptionLeaks | mq/nats.go:203-248 | after Close only subscriptions whose Subscribe call is about to stop them still deliver, failed flushes included |
| MqShutdown.TeardownNeverStuck | mq/jetstream.go:376-384 | until the connection is closed some teardown step is possible |
| MqShutdown.TeardownBounded | mq/jetstream.go:363-385 | after Close at most four steps per watcher, three per handler and three more are taken, whatever else happens, and the connection is closed exactly when none is left |
| Subjects.SubjectMatches | mq/jetstream.go:157-171 | the loop over tokens decides the recursive reading |
| Subjects.CoversExactly | mq/jetstream.go:145-171 | which decides exactly the instances of the subject |
| Paging.HexId | internal/logic/resource.go:46-50 | ids are 32 characters, so never empty |
| Paging.HexIdUnique | internal/logic/resource.go:46-50 | different random bytes make different ids |
| Paging.ResourceService.CreateResource | internal/logic/resource.go:56-77 | the resource stored under its new id, or a refusal |
| Paging.ResourceService.UpdateResource | internal/logic/resource.go:133-153 | only the given fields change |
| Paging.ResourceService.DeleteResource | internal/logic/resource.go:156-164 | the resource is gone, or was not there |
| Paging.ResourceService.ListResources | internal/logic/resource.go:95-129 | collecting, sorting, seeking and cutting gives the first resources of the owner after the token, as many as the page size or fifty, and a token if and only if more remain |
| Paging.WalkIsComplete | internal/logic/resource.go:92-129 | a finished walk over a changing store returns strictly increasing ids and every id that is there with the owner at each fetch |
| Paging.WalkIsSound | internal/logic/resource.go:92-129 | every id returned was there with the owner when its page was fetched |
| Paging.WalkOfFixedStore | internal/logic/resource.go:92-129 | on a fixed store the walk ends and lists exactly the matching ids in order |
| HealthCache.Registry.Register | health/health.go:122-130 | a new check and a new generation, or a panic |
| HealthCache.Registry.Replace | health/health.go:134-139 | the check is installed under a new generation |
| HealthCache.Registry.CachedSnapshot | health/health.go:174-184 | the cached snapshot while it is servable, otherwise a fresh one |
| HealthCache.NoStaleSnapshot | health/health.go:122-184 | a call that begins after a registration returned is served a snapshot that ran that check or a later one of the same name, in every interleaving |
| HealthCache.SnapshotsAreReports | health/health.go:64-78 | every snapshot cached or served states what the checks reported in one evaluation, and that a check that panicked is unhealthy |
| HealthCache.ServedExactlyWhenRecent | health/health.go:174-184 | a call is served without an evaluation if and only if the last one began under the current generation and ended less than a watch interval ago |
| HealthCache.DuplicatesRefused | health/health.go:117-139 | in every run registering a taken name changes nothing, and anything else is recorded |
| HealthCache.EvaluationsSpaced | health/health.go:165-184 | evaluations under one generation are a watch interval apart, and the intervals add up |
| KeySetCache.KeySetObject.LookupKey | auth/jwks.go:161-172 | the key under the kid, or for an empty kid the only key there is, or none |
| KeySetCache.KeySetObject.Decide | auth/jwks.go:137-151 | serve, or record the claim in the same lock section |
| KeySetCache.KeySetObject.Install | auth/jwks.go:121-130 | a successful fetch replaces the keys |
| KeySetCache.FetchesAreRare | auth/jwks.go:132-151 | a window of any length holds at most one claimed fetch per gap and one more |
| KeySetCache.FetchesExactlyWhen | auth/jwks.go:137-151 | when a call fetches; a known kid in a fresh set never does |
| KeySetCache.FetchesEnd | auth/jwks.go:114-159 | a success puts its keys in place and the call is answered from the set then in place; a failure leaves the set alone and the call is answered from the set it began with |
| KeySetCache.KeysComeFromFetches | auth/jwks.go:105-130 | the keys in place are always the result of a successful fetch |
| KeySetCache.AnswersWereCurrent | auth/jwks.go:132-159 | every answer is what a set says that was in place during the call |
| KeySetCache.InstallsAreTheLatest | auth/jwks.go:114-130 | with fetches that end within their timeout, a running fetch is always the last one claimed |
| MemoryCache.MaxEntries | cache/memory.go:117-129 | a positive bound is kept, zero means the default and a negative one no bound |
| MemoryCache.Cache.Get | cache/memory.go:77-91 | a hit on an entry that has not expired |
| MemoryCache.Cache.Set | cache/memory.go:93-115 | stores, evicting one entry only for a new key in a full cache |
| MemoryCache.Cache.EvictOne | cache/memory.go:131-151 | removes the first expired entry among the at most eight visited, and without one the first visited |
| MemoryCache.Cache.Del | cache/memory.go:153-161 | removes the key |
| MemoryCache.Cache.Sweep | cache/memory.go:57-75 | removes exactly the entries expired at the tick |
| MemoryCache.ReadsRefineTtlMap | cache/memory.go:77-151 | every read is a miss or exactly the value last set, not deleted and within its time to live; without a bound, exactly that |
| MemoryCache.SetsAreRead | cache/memory.go:93-115 | what was set reads back at once, value and expiry as given |
| MemoryCache.SweepsExactly | cache/memory.go:57-75 | a sweep removes an entry if and only if its time to live has passed at the tick |
| MemoryCache.SizeBounded | cache/memory.go:93-115 | a bounded cache never exceeds its bound |
| MemoryCache.EntriesLeaveOnlyWhen | cache/memory.go:57-151 | an entry leaves only by deletion, after it reads as a miss, or for a new key in a full cache |

## Left out

- Wrap-around of the 64-bit breaker and health generations: both are unbounded here, so the results speak of runs with fewer than 2^64 transitions.
- Static key sets, key parsing and signature checks in auth/: cryptographic libraries, or a plain lookup.
- RespPool.RepliesMatchExactly: takes the reads in the dials to be harmless, because after a setup reply that was cut harmfully a later reply can still be right by coincidence; RespPool.ReadsMatchExactly is about all reads and assumes nothing.
- Deadlines and cancel hooks of the Redis client: a round trip may fail at any point, time out, or taint its connection.
- Array replies: the doc comment of readReply mentions them, the code refuses them, and the model follows the code.
- Validation beyond a property that is left unset: a zero value that is sent, lengths, patterns and messages.
- Gemini and MCP renderings, tool-name validation and BuildIR's outer loop: short, mostly field by field.
- The order of fields in a message is kept, but full names are not parsed: a well-known type is a constructor of its own.
- Streams in mq/: ensureStream, stream names (which rest on a hash), headers and publishing; closeWithin's early return does not stop the teardown and is not a step.
- Watch streams and their caps in health/, and the drain flag.
- HTTP and gRPC serving, the MCP bridge, rate limiting, load shedding, logging, metrics, tracing, configuration, storage, generated code and the CLI.
- Failure to attach a status detail, and UTF-8 limits on status messages.
- The text of an error is never formatted here: a nil `*apperr.Error` inside a joined error resolves to the internal row, where formatting the join would call `Error` on the nil receiver.
- Copying of values at the boundary of the cache and of the resource store: values are immutable here, so aliasing does not arise.
