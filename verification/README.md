# A verified model of dd-core

dd-core is a request/reply middleware over MQTT: data services that turn an asynchronous broker into
synchronous calls, a peer registry with leases, access control over topics, and bridges to HTTP, CoAP and
other brokers. This project models its logic in Dafny and proves what that logic is for. Every module below
is one file of the same name; `dafny verify dfyconfig.toml` checks them together.

| module | models |
|---|---|
| `SyncEngine`, `SyncRace`, `LatestReply` | `SendSync` and the reply handlers as a step system: any number of calls and handlers, every mutex block and every channel operation one step |
| `IdempotencyCache`, `CacheHistory` | the reply cache, its expiry sweep and capacity eviction, against the log of completed calls |
| `SendSyncSystem`, `TransferStatus`, `SharedId` | engine, cache, status table and both sweepers together, over every interleaving; several calls under one request id |
| `DdDataService`, `ServiceRun`, `BridgeReply` | the service as an object, its refinement of the system of interleaved calls, and one call followed over the wire, through a bridge, and back |
| `Envelope` | the message, its two generations of header fields, validation and the codec |
| `PeerRegistry`, `LeaseHistory` | peer records under leases, and the stale sweep over every run of events |
| `ResourceSchema`, `SchemaMeaning`, `SchemaExact`, `SchemaOrder`, `HubValidation` | merging provider schemas, judged by the request validator: when it is exact, when the order matters, and the verdict over a store |
| `ResourceCatalog`, `PeerList`, `PeerPages` | the inverted index of providers; the filtered peer list, and what paging through it collects |
| `TopicLevels`, `TopicMatch`, `TopicAcl`, `TopicSet`, `MqttBridge`, `BridgeLoop` | topics as strings and as levels, both matchers, access control, the reply streams, the topic rewrite and where it ends |
| `CoapCodec`, `CoapPacket` | both CoAP codecs (sections 3 and 3.1 of RFC 7252), against a packet grammar |
| `CoapQueue`, `CircuitBreaker` | the bounded task queue with its workers; the breaker and the retry loops of both bridges |

Conventions. Time is an integer, handed in by the caller; 0 is the zero time. Iterating over a Go map visits the
keys in an arbitrary order, so loops over maps pick any remaining key. A reply in a channel is named by the
handler invocation that decoded it, because the channels carry pointers. Classes are the objects whose fields the
program updates; their methods are proved against functions on values, and the theorems are about those functions
and about whole runs. A network attempt's outcome is a parameter.

## What was found

Properties that hold as designed are in the table. These hold only under a condition, which is stated exactly and
proved:

- **Paging.** `docs/design-auth-v1.2.md:234` asks for sorting before a page is cut. The code does not sort: every page
  request lists a Go map anew, in any order. Paging returns every selected peer once, whatever orders the requests see,
  if and only if one page holds them all (`PagesCompleteIff`). With two peers and one a page a client can get the one
  twice and the other never (`PeerIsMissed`). Nothing that is not selected is ever returned (`PagesAreTheAclView`), and
  with one order for all requests, as sorting would give, paging is complete (`SortedPagesComplete`).
- **Merged enums.** The repository's own README (line 354) says that enum constraints are merged by intersection.
  An empty intersection is then read as "no constraint", so disjoint enums admit everything
  (`DisjointEnumsLoseTheConstraint`). For enums without the empty string, the merged schema means what the providers
  mean if and only if the enums of each field share a value or the providers are at odds in any case: one requires an
  unknown name, or no timeout suits them all (`MergeExactIffPlain`; `MergeExactIff` is the general form). The same
  condition decides for the hub's validator over a store (`ValidatorMeansProvidersIff`). Numeric ranges are always exact.
- **The order of the providers.** Whenever the enums of a field share no value, there is one further provider with
  which two orders give different verdicts (`OrderMatters`). The order is irrelevant whichever provider joins that
  lists at least what the others list if and only if they share a value (`OrderIrrelevantIffShared`), and whichever
  provider joins at all if and only if at most one of them restricts the field (`OrderIrrelevantIffAtMostOne`).
- **The latest reply replaces a stale one** (comment at `internal/service/dd_data_service.go:104-105`). A handler that is
  about to send is sure to leave its reply in the channel if and only if no other handler on the channel is before its
  drain, and at most one is past it with the channel still empty (`LatestStaysIffUnopposed`). Otherwise an older reply
  can be the one that stays (`EitherReplyCanWin`, `LatestReplyCanLose`). No reply is lost either way (`NoReplyLost`).
- **A cached reply carries the id of the call that fetched it**, so a retry under a new request id receives a reply
  correlated with the old one (`EveryReturnedReply`).
- **Reply addressing.** A peer or request id that contains `/` makes the reply topic miss both reply streams
  (`ResponseReachesStream`, `ResponseByRequestReachesStream`); a request to a resource named `response` lands on a
  reply stream, and only such a request does (`RequestReachesNoStream`).
- **Bridge loops.** The bridge publishes on the client it subscribes to. A `#` mapping forwards everything under its
  prefix finitely often if and only if neither prefix begins with the other, and the bare parent without end
  (`HashChainsEndIff`); a `+` mapping if and only if the prefixes differ (`PlusChainsEndIff`).
- **Bridge rewrite.** The bare parent of a `#` source is forwarded to the topic it came from
  (`RewriteAgreesWithMatching`), and so is everything that a source with a wildcard before its last level takes
  (`InnerWildcardForwardsInPlace`).
- **CoAP lengths.** An option delta or length comes back if and only if it is at most 65804 (`FieldRoundTripIff`), and
  requests with a path of length n give their payload back if and only if n is (`RequestRoundTripIff`): past that the
  builder wraps, and a path of plain letters makes the parser lose some of any payload (`LongPathBreaksRoundTrip`). The parser
  accepts nibble 15, which RFC 7252 reserves, as the number 15 (`ParserExact`).
- **Matchers.** The broker mock reads a `*` level as `+`; the two matchers agree on every topic if and only if the
  pattern has no `*` level before its first `#` (`MatchersAgreeIffNoStar`). Neither excludes topics that start with
  `$` from a leading wildcard, as section 4.7.2 of MQTT 3.1.1 does, so the access-control matcher is MQTT's on every
  topic if and only if the filter does not begin with one (`AclIsMqttIffNoLeadingWildcard`).
- **Statuses.** Under an id that one call alone used stands what that call recorded last, until a sweep runs later than
  that record plus the retention of thirty minutes; a cancelled call stays "routed", a refused one "accepted"
  (`StatusTellsCall`). When several calls use an id, the status stays that of one of them, short of a new call under
  the id, if and only if it is that now and no other call under the id contests it: none is still to be admitted or
  answered, and none has a differing record to make (`StaysOwnIffUncontested`, for a service that admits calls at all).
  A run in which a running call is contested and overwritten exists from the start (`SharedIdOverwrites`).
- **Stopping.** When `Stop` returns, all accepted tasks have been handled if and only if the pool has a worker or
  nothing was accepted (`StopDrains`).
- **The sweep clock.** A sweep changes no answer if and only if no peer that the query sees has an expired lease at the
  time of the sweep (`SweepChangesNothingIff`). Under a clock that does not run backwards that is always so; a sweep
  dated after the query can hide a peer whose lease still runs (`EarlySweepHides`).
- **Tenants.** The filters that the program uses on transfer topics separate tenants of any depth
  (`PlainTenantsAreSeparate`); any filter separates tenants of one level from each other (`TenantsAreSeparate`), but
  one with `#` takes every transfer topic of the tenants below its own (`HashCrossesTenants`).

## Model

| member | source | states |
|---|---|---|
| SyncEngine.RunInv | internal/service/dd_data_service.go:82-116 | over every interleaving of calls and reply handlers: entries of the pending map are the registered calls, channels hold at most one reply and only replies with the call's id, and no delivered reply has vanished |
| SyncEngine.PendingIsRegisteredCalls | internal/service/dd_data_service.go:197-213 | in every reachable state the pending map is within its bound and has an entry for an id exactly when one registered call owns it |
| SyncEngine.CleanupRemovesOwnEntry | internal/service/dd_data_service.go:209-213 | the deferred delete removes the entry of its own call and leaves every other entry as it was |
| SyncEngine.NoReplyLost | internal/service/dd_data_service.go:98-113 | once a delivery has touched a call's channel and no handler is between its drain and its final send, the call has a reply or its channel holds exactly one, also when the reply came before the caller began to wait |
| SyncEngine.ChannelsHoldOne | internal/service/dd_data_service.go:98-113 | in every reachable state: a send into a full channel changes nothing, a drain empties it, the waiter takes what is in it, and a handler that found it full drains and sends once more |
| SyncEngine.ReplyIsOwn | internal/service/dd_data_service.go:88-114 | a reply taken from the channel has the call's request id as its correlation id or, if it has none, as its request id, and no other call takes the same delivery |
| SyncEngine.RepliesAreFound | internal/service/dd_data_service.go:88-97 | a reply is handled exactly when one of its two ids is not empty, the correlation id counts first, and a channel is found exactly when a call is registered under that id |
| SyncEngine.NoCrossTalk | internal/service/dd_data_service.go:97-113 | a handler that found one call's channel never feeds another call, in any continuation, even one that reuses the request id |
| SyncEngine.UninterruptedDeliveryWins | internal/service/dd_data_service.go:101-113 | one schedule: a delivery that no other step interrupts leaves exactly its own reply in the channel, whatever was there |
| LatestReply.LatestStaysIffUnopposed | internal/service/dd_data_service.go:98-113 | the exact condition under which the reply of a handler that is about to send stays in the channel, over every continuation in which the waiter takes nothing and no new handler finds the channel |
| LatestReply.CanComeToRest | internal/service/dd_data_service.go:98-113 | such a continuation, in which all handlers on the channel finish, always exists |
| SyncRace.EitherReplyCanWin | internal/service/dd_data_service.go:104-113 | two deliveries that both found the channel full: either reply can be the one that stays |
| SyncRace.LatestReplyCanLose | internal/service/dd_data_service.go:104-113 | a reachable state in which a reply arrives while an older one is being delivered, and a continuation in which the older one stays |
| IdempotencyCache.IdempotentStore.LookupIdempotent | internal/service/dd_data_service.go:310-321 | hit exactly for a stored non-empty key before its expiry |
| IdempotencyCache.IdempotentStore.StoreIdempotent | internal/service/dd_data_service.go:323-337 | stores under a non-empty key, until the later of one minute and five times the timeout from now, in milliseconds |
| IdempotencyCache.IdempotentStore.OldestKey | internal/service/dd_data_service.go:352-361 | the scan, in any map order, finds a key whose expiry is least |
| IdempotencyCache.IdempotentStore.DropExpired | internal/service/dd_data_service.go:344-349 | deletes exactly the expired entries, in any map order |
| IdempotencyCache.IdempotentStore.SweepIdempotent | internal/service/dd_data_service.go:339-370 | the sweep terminates; only expired entries and, above capacity, those expiring no later than every survivor are gone; the bound is reached unless the empty key is stored |
| CacheHistory.RunAgrees | internal/service/dd_data_service.go:310-370 | over every run the empty key is never stored, every entry is the last completed call's for its key, and an absent one has expired or was evicted for capacity |
| CacheHistory.HitIsLatestCompletion | internal/service/dd_data_service.go:310-337 | a hit returns the reply of the most recently completed call with that key, less than 60000 ms or less than five timeouts after it |
| CacheHistory.LookupIff | internal/service/dd_data_service.go:310-321 | a lookup hits exactly inside that window of the last completed call with the key, unless its entry was evicted for capacity |
| CacheHistory.MissIsEviction | internal/service/dd_data_service.go:310-370 | over every run, inside that window a lookup misses exactly when the entry was evicted for capacity |
| CacheHistory.SweepBounded | internal/service/dd_data_service.go:339-370 | a sweep leaves at most ten thousand entries, and fewer only when every unexpired one is kept |
| CacheHistory.SweepInvisible | internal/service/dd_data_service.go:339-370 | at or below capacity the sweep changes no lookup's answer |
| SendSyncSystem.RunInv | internal/service/dd_data_service.go:155-251 | engine, cache, status table and both sweepers interleaved, with calls denied by access control: every logged completion and every cached answer is explained, and the table agrees with the log of what the calls recorded |
| SendSyncSystem.EveryReturnedReply | internal/service/dd_data_service.go:155-251 | a fresh reply carries the call's request id; a cached one is that of the latest completion with the same non-empty key, asked for inside its window, and carries this call's id exactly when the two calls share it |
| SendSyncSystem.AnsweredFromCacheIff | internal/service/dd_data_service.go:168-176 | in every reachable state a call is answered from the cache exactly when it is allowed and the last completion with its key is inside its window and not evicted, and then with that reply; a call that is not allowed fails at once; every other goes on to its first status |
| TransferStatus.NotedAgrees | internal/service/dd_data_service.go:288-308 | a record keeps the table in agreement with the log: the last record of every id stands unless a sweep ran later than its retention |
| TransferStatus.SweptAgrees | internal/service/dd_data_service.go:372-385 | so does a tick of the retention sweep |
| SendSyncSystem.StatusTellsCall | internal/service/dd_data_service.go:195-250 | over every run, under an id that one call used stands what that call recorded last, and it is gone after a record if and only if a sweep ran later than the record plus the retention; once the call has ended its last record tells how |
| SharedId.SharedIdOverwrites | internal/service/dd_data_service.go:195-206 | a run from the start in which a running call has recorded routed and the status under its id is accepted |
| SharedId.StaysOwnIffUncontested | internal/service/dd_data_service.go:155-251 | in every reachable state: the status under an id stays what a given call recorded last, or is swept away, in every continuation without a new call under the id, if and only if it is that now and no other call under the id contests it |
| DdDataService.FillIn | internal/service/dd_data_service.go:178-184 | mode, creation time and default timeout filled in before the checks |
| DdDataService.DdDataService.RecordStatus | internal/service/dd_data_service.go:288-308 | creates the record once, from the message, keeps all of it but status, latency and time, and touches no other record |
| DdDataService.DdDataService.SweepTransferStatuses | internal/service/dd_data_service.go:372-385 | deletes exactly the records not updated for more than thirty minutes, in any map order |
| DdDataService.StandingsFollow | internal/service/dd_data_service.go:288-385 | the object's records and sweeps are the steps of the status table |
| DdDataService.DdDataService.Register | internal/service/dd_data_service.go:197-208 | the bound is checked before the duplicate; a refused call changes no entry; an admitted one owns a new, empty channel |
| DdDataService.DdDataService.HandleReply | internal/service/dd_data_service.go:82-116 | a reply with a correlation id that is pending becomes the only content of that id's channel; one without a correlation id but with a pending request id becomes the content of that channel; anything else changes nothing |
| DdDataService.DdDataService.CheckAcl | internal/service/dd_data_service.go:70-80 | without an access control service everything is allowed, else what its rules permit |
| DdDataService.DdDataService.Prepare | internal/service/dd_data_service.go:155-194 | the message as it is registered and published; refused by access control exactly when the rules do not permit the normalised source peer to publish on the topic; then cache, request id and validation in this order |
| DdDataService.FirstOwnIs | internal/service/dd_data_service.go:82-116 | the reply that a waiter takes is the first arrival addressed to it, and there is none only if no arrival is |
| DdDataService.WaitFeedsOthers | internal/service/dd_data_service.go:82-116 | any other pending id is left with the last reply for it that came before the wait ended, or with what it had |
| DdDataService.DdDataService.Await | internal/service/dd_data_service.go:231-250 | of any number of arriving replies the waiter takes the first addressed to it; the others are delivered to their channels |
| DdDataService.DdDataService.Exchange | internal/service/dd_data_service.go:215-250 | publish failure, encoding failure, reply, cancellation and timeout, each with the statuses, cache entry and publication it leaves |
| DdDataService.CallsEnd | internal/service/dd_data_service.go:155-251 | for every call which of the ten endings it has, and why; a call that is denied, cached or invalid leaves no trace, and exactly those that go out publish, once |
| DdDataService.AnswersAreStored | internal/service/dd_data_service.go:247-250 | an answered call with a key leaves its reply in the cache for the later of one minute and five timeouts; no other call changes the cache |
| DdDataService.DdDataService.SendSync | internal/service/dd_data_service.go:155-251 | one call from start to end: denied exactly when the rules do not permit the sender; cached exactly when a live entry has its key; answered with the first own arrival; published once exactly when answered, cancelled or timed out; without a trace when denied, cached or invalid; the pending map as it was on every path |
| ServiceRun.SendSyncIsARun | internal/service/dd_data_service.go:155-251 | from every state of the system of interleaved calls that stands for the object, its SendSync is a run of that system that begins with this call entering, allowed exactly as access control decided, with the same outcome, statuses, cache and pending ids |
| DdDataService.StatusTellsOutcome | internal/service/dd_data_service.go:195-250 | one call alone: the status left under the id tells its outcome; other records and the creation time are untouched |
| DdDataService.RetryIsServedFromCache | internal/service/dd_data_service.go:172-176 | one call alone: a retry with the same key inside the window is answered from the cache, without a new request |
| BridgeReply.ReplyLandsAtItsCaller | internal/adapter/http_bridge.go:80-145 | a request the data service sent reaches the bridge unchanged, and the bridge's reply, compressed or not, lands in the caller's own channel with its body, resource, trace id and addresses |
| BridgeReply.BridgeFillsIn | internal/adapter/http_bridge.go:80-100 | what a bridge makes of a decoded request: synchronous, with five seconds if it names no timeout, and dropped exactly when that is invalid |
| BridgeReply.ReplyTopicIsSubscribed | internal/adapter/http_bridge.go:110-125 | for every reply address: the default one is on a stream the service subscribes to exactly when the source peer id is one level, a given one exactly when it is the reply topic of some one-level peer or request id |
| Envelope.DdMessage.Normalize | internal/model/dd_message.go:122-142 | old and new header fields filled from one another, in place |
| Envelope.DdMessage.Validate | internal/model/dd_message.go:56-120 | the first complaint in the order of the checks, and the message left normalised |
| Envelope.ComplaintsInOrder | internal/model/dd_message.go:56-120 | which messages are valid and which complaint comes first, by their fields and the fields each protocol admits |
| Envelope.DdMessage.ProtocolFields | internal/model/dd_message.go:144-150 | the protocol's own fields, else the old headers, after normalising |
| Envelope.CloneMap | internal/model/dd_message.go:156-165 | an equal map, in any iteration order |
| Envelope.NormalizeIdempotent | internal/model/dd_message.go:122-142 | normalising twice is normalising once |
| Envelope.NormalizeOnlyFills | internal/model/dd_message.go:122-142 | nothing present is overwritten, what is absent comes from the other generation, and the two headers are afterwards both present or both absent |
| Envelope.GenerationsAgree | internal/model/dd_message.go:122-150 | a message in the old form and the same message in the new form normalise to the same message |
| Envelope.IsGzipEnvelope | internal/model/dd_message_codec.go:55-65 | yes exactly for data whose first five bytes are the magic |
| Envelope.EncodeDdMessage | internal/model/dd_message_codec.go:12-32 | writes the encoding of the normalised message, fails exactly when marshalling or compressing does, and leaves the message normalised |
| Envelope.DecodeDdMessage | internal/model/dd_message_codec.go:34-53 | reads either form; fails exactly when unzipping or parsing does |
| Envelope.EnvelopeRoundTrip | internal/model/dd_message_codec.go:12-65 | decoding an encoded message yields the normalised message for both compression choices |
| Envelope.WireKeepsMeaning | internal/model/dd_message_codec.go:12-53 | crossing the wire changes neither the verdict of validation nor the protocol fields |
| PeerRegistry.PeerRegistryService.HandleRegister | internal/service/peer_registry_service.go:71-88 | the record under its id, registering, with a fresh heartbeat and a creation time that is set once |
| PeerRegistry.PeerRegistryService.HandleHeartbeat | internal/service/peer_registry_service.go:90-106 | a known peer becomes active with the given, else the current, heartbeat; an unknown one changes nothing |
| PeerRegistry.PeerRegistryService.HandleResourceReport | internal/service/peer_registry_service.go:108-139 | resources are the non-empty names of apis, topics and streams, in order; schemas replaced only when given |
| PeerRegistry.NamesInOrder | internal/service/peer_registry_service.go:118-132 | one more item adds its name at the end, and nothing if it has none |
| PeerRegistry.PeerRegistryService.GetPeers | internal/service/peer_registry_service.go:170-187 | each visible record exactly once, in any store order: neither offline nor stale, last heartbeat at most a lease ago or never, and the resource among its resources unless none is asked for |
| PeerRegistry.MemoryStore.List | internal/registry/memory_store.go:48-56 | every record exactly once |
| PeerRegistry.MemoryStore.SweepStale | internal/registry/memory_store.go:58-71 | exactly the expired records with a heartbeat become stale, in any iteration order |
| PeerRegistry.PeerRegistryService.GetResourceMetaSchema | internal/service/peer_registry_service.go:255-308 | the merge, in some order of the visible peers, of the schemas they declare; none if none does |
| PeerRegistry.Aggregate | internal/service/peer_registry_service.go:257-308 | the loop over peers merges exactly the declared schemas, in order |
| PeerRegistry.DeclaredByPeers | internal/service/peer_registry_service.go:262-272 | which schemas take part: those that a peer with the capability declares for the resource |
| LeaseHistory.Handle | internal/service/peer_registry_service.go:71-191 | each of the five handlers makes the step that the histories are built from |
| LeaseHistory.VisibleIsHistory | internal/service/peer_registry_service.go:170-187 | for every run of events under a non-decreasing clock a query lists a peer exactly when it registered after it last unregistered, its last registration or heartbeat is at most a lease old or has no time, and the resource is among the names of its last registration or report |
| LeaseHistory.StoreIsHistory | internal/service/peer_registry_service.go:71-168 | for every run, the records of the store against the last events of each kind |
| LeaseHistory.Query | internal/service/peer_registry_service.go:170-187 | what the service answers after any events is what they decide |
| LeaseHistory.SweepsAreInvisible | internal/service/peer_registry_service.go:170-191 | for every run under a non-decreasing clock and sweeps anywhere, every query answers with the same full records as without them |
| LeaseHistory.RunsShadow | internal/registry/memory_store.go:58-71 | the simulation: a swept record is the unswept one, or marked stale after its lease expired |
| LeaseHistory.StaleMeansExpired | internal/registry/memory_store.go:58-71 | in every reachable store a stale peer has a non-zero heartbeat whose lease has expired, so a peer is visible exactly while its lease runs |
| LeaseHistory.EarlySweepHides | internal/service/peer_registry_service.go:170-191 | why the clock must not run backwards |
| LeaseHistory.SweepChangesNothingIff | internal/registry/memory_store.go:58-71 | a sweep changes no answer if and only if no peer that the query sees has an expired lease at the time of the sweep |
| ResourceSchema.MergeConstraint | internal/service/peer_registry_service.go:310-342 | larger minimum, smaller maximum, and the enums intersected when both are non-empty |
| ResourceSchema.AppendNew | internal/service/peer_registry_service.go:273-293 | appends what is not yet listed, in order, each once |
| ResourceSchema.AppendedOnce | internal/service/peer_registry_service.go:273-293 | one more addition is appended at the end unless it is listed or was added before |
| ResourceSchema.MergeConstraintMaps | internal/service/peer_registry_service.go:294-301 | field by field, in any map order |
| SchemaMeaning.ValidateConstraint | api/handler.go:740-764 | timeout by range, any other field by enum, where an empty enum or an absent value passes |
| SchemaMeaning.ValidateRequestMeta | api/handler.go:686-738 | accepts exactly when the required header fields and protocol fields are present and every constraint passes |
| SchemaMeaning.HeaderFieldsAreRead | api/handler.go:686-738 | each of the nine header requirements depends on its own header field and on no other |
| SchemaMeaning.FieldOfMerge | internal/service/peer_registry_service.go:255-308 | the merged constraint of a field is the merge of exactly the providers' constraints on it |
| SchemaMeaning.NamesOfMerge | internal/service/peer_registry_service.go:273-293 | a name is required, optional or a required protocol field of the merge exactly when it is in some provider's schema |
| SchemaMeaning.RangeOfMerge | internal/service/peer_registry_service.go:310-325 | a value is in the merged range if and only if it is in every provider's range |
| SchemaMeaning.MergedEnumExactIff | internal/service/peer_registry_service.go:326-342 | the exact condition under which a merged enum admits what all providers admit |
| SchemaMeaning.AcceptedByAllIsAcceptedByMerged | internal/service/peer_registry_service.go:255-342 | a request that every provider's schema accepts is accepted by the merged one, unconditionally |
| SchemaMeaning.MergedMeansAll | internal/service/peer_registry_service.go:255-342 | when the enums of each field share a value, the merged schema accepts exactly what all providers accept |
| SchemaMeaning.ProviderOrderIrrelevant | internal/service/peer_registry_service.go:262-307 | then the verdict of whole schemas does not depend on the order of the providers |
| SchemaOrder.OrderMatters | internal/service/peer_registry_service.go:310-342 | without a shared value there are one further provider, two orders and a value on which the verdicts differ |
| SchemaOrder.OrderIrrelevantIffShared | internal/service/peer_registry_service.go:310-342 | the order is irrelevant under every provider that lists what the others list, or restricts nothing, if and only if the enums share a value |
| SchemaOrder.OrderIrrelevantIffAtMostOne | internal/service/peer_registry_service.go:310-342 | the order is irrelevant under every further provider if and only if at most one restricts the field |
| SchemaExact.AcceptsNothingIffHopeless | api/handler.go:686-764 | a schema accepts no request if and only if an unknown name is required, no timeout will do, or a required field may only be blank |
| SchemaExact.ExactIffShared | internal/service/peer_registry_service.go:326-342 | for enums without the empty string, the merged enum is exact if and only if they share a value |
| SchemaExact.MergeExactIff | internal/service/peer_registry_service.go:255-342 | on every request the merged schema accepts exactly what all providers accept, if and only if it is hopeless or the enums of every field are exact |
| SchemaExact.MergeExactIffPlain | internal/service/peer_registry_service.go:255-342 | the same, read off the providers' own schemas: the enums share values, or the providers are at odds in any case |
| HubValidation.Validate | api/handler.go:686-713 | the verdict on a request is that of the merged schema of the visible peers, in some order of the store |
| HubValidation.ValidatorMeansProvidersIff | api/handler.go:686-764 | for every order in which the store lists its peers: the validator accepts exactly what every visible provider's schema accepts, if and only if the enums share values or the providers are at odds |
| SchemaMeaning.DisjointEnumsLoseTheConstraint | internal/service/peer_registry_service.go:326-342 | two disjoint enums admit a value that neither lists, and with a third the order decides, on concrete enums |
| ResourceCatalog.Catalog.OnPeerRegistered | internal/service/resource_catalog.go:18-24 | adds the peer to each resource, in order |
| ResourceCatalog.Catalog.OnPeerUnregistered | internal/service/resource_catalog.go:26-38 | removes the peer from every list, in any map order |
| ResourceCatalog.Catalog.OnResourceReport | internal/service/resource_catalog.go:40-55 | replaces what the peer offered |
| ResourceCatalog.Catalog.AddProvider | internal/service/resource_catalog.go:73-81 | appends a provider that is not listed yet |
| ResourceCatalog.Catalog.GetProviders | internal/service/resource_catalog.go:57-61 | whatever events came before: the peers that offered the resource and have not since forgotten it, each once |
| ResourceCatalog.CatalogIsHistory | internal/service/resource_catalog.go:18-81 | after any run of events, providers are listed once each and are exactly the peers that offered the resource in an event and forgot it in no later one |
| PeerList.PeerListService.FilterByAcl | internal/service/peer_list_service.go:97-110 | keeps, in order, the peers whose request topic the caller may subscribe or publish to; everything without a service or a caller |
| PeerList.PeerListService.FilterByRole | internal/service/peer_list_service.go:112-123 | keeps, in order, the peers in the role |
| PeerList.PeerListService.FilterByStatus | internal/service/peer_list_service.go:125-136 | keeps, in order, the peers with the status |
| PeerList.FilterConcat | internal/service/peer_list_service.go:97-136 | a filter keeps the order and every occurrence: it works peer by peer |
| PeerList.PeerListService.Paginate | internal/service/peer_list_service.go:55-82 | twenty a page unless a size within the bound is asked for, from a non-negative offset; the slice, the total, and whether more follows |
| PeerList.PeerListService.HandleQuery | internal/service/peer_list_service.go:42-95 | the page of what the query selects, of some listing of the registry's visible peers |
| PeerList.FiltersCompose | internal/service/peer_list_service.go:49-55 | the filters in sequence select exactly what the query asks for |
| PeerList.PagesConcatenate | internal/service/peer_list_service.go:56-82 | of one fixed list the pages concatenate to exactly that list |
| PeerPages.ListsAreArrangements | internal/registry/memory_store.go:48-56 | what a page request may see: exactly the arrangements of the records without repetition |
| PeerPages.PagesCompleteIff | internal/service/peer_list_service.go:49-82 | paging returns every selected peer once, for every choice of listings, one per page, if and only if one page holds them all |
| PeerPages.ReachablePagesCompleteIff | internal/service/peer_list_service.go:49-82 | the same for the stores that registry events make of a well-kept one, and every query |
| PeerPages.PeerIsMissed | internal/service/peer_list_service.go:49-82 | two peers, one a page: listed as x, y and then as y, x, the client gets x twice and y never |
| PeerPages.SortedPagesComplete | internal/service/peer_list_service.go:49-82 | with one order for all requests, paging is complete for every page size |
| PeerPages.PagesAreTheAclView | internal/service/peer_list_service.go:49-136 | for every choice of listings, only peers that pass role and status and for which publishing or subscribing is allowed and not denied; all of them when they fit one page or the order stays |
| TopicLevels.SplitJoin | internal/service/topic_acl_service.go:57-60 | splitting and joining levels are inverse |
| TopicLevels.SplitConcat | internal/service/topic_acl_service.go:57-60 | the levels of a string joined by a slash |
| TopicMatch.MatchMqttTopic | internal/service/topic_acl_service.go:57-76 | the index loop decides as the recursive definition does |
| TopicMatch.MatchLevels | internal/mq/mock_client.go:87-108 | the loop over two positions decides as the recursive definition does |
| TopicMatch.MatchMqttTopicWildcard | internal/mq/mock_client.go:78-108 | so does the broker matcher; its equality shortcut changes no answer |
| TopicMatch.MatchersLevelByLevel | internal/service/topic_acl_service.go:57-76 | for every pattern what both matchers decide, level by level up to its first hash |
| TopicMatch.MatchesIsPointwise | internal/service/topic_acl_service.go:57-76 | the recursion against the level-by-level reading of section 4.7 of MQTT 3.1.1 |
| TopicMatch.AclMatcherIsMqtt | internal/service/topic_acl_service.go:57-76 | on valid filters the access-control matcher is the MQTT definition, except exactly for leading wildcards on topics with a dollar sign |
| TopicMatch.AclIsMqttIffNoLeadingWildcard | internal/service/topic_acl_service.go:57-76 | a valid filter is matched as MQTT does on every topic if and only if its first level is no wildcard |
| TopicMatch.BrokerIsAclOnRewritten | internal/mq/mock_client.go:78-108 | on every pattern and topic the broker decides as access control does after star levels are read as plus |
| TopicMatch.MatchersAgreeIffNoStar | internal/mq/mock_client.go:78-108 | the two matchers agree on every topic if and only if no star level stands before the first hash |
| TopicAcl.TopicAclService.Authorize | internal/service/topic_acl_service.go:37-55 | true exactly when some applicable rule allows and none denies, though the loop stops early |
| TopicAcl.RuleOrderIrrelevant | internal/service/topic_acl_service.go:37-55 | permuting the rules changes no decision |
| TopicAcl.DenyWins | internal/service/topic_acl_service.go:37-55 | what one more rule does to a decision |
| TopicAcl.ForeignRulesIrrelevant | internal/service/topic_acl_service.go:37-55 | rules for another peer, the other action, or topics that do not match change no decision and alone allow nothing |
| TopicSet.StreamVerdict | internal/service/topics.go:37-55 | which addresses a reply-stream filter takes, by both matchers, for any tenant without a hash level |
| TopicSet.TopicsSpelledOut | internal/service/topics.go:20-55 | the topics and stream filters as strings |
| TopicSet.ResponseReachesStream | internal/service/topics.go:41-51 | a reply to a peer arrives on the peer stream exactly when the peer id is one level |
| TopicSet.ResponseByRequestReachesStream | internal/service/topics.go:45-55 | a reply to a request id arrives on its stream exactly when the id is one level |
| TopicSet.RequestReachesNoStream | internal/service/topics.go:37-55 | a request reaches a reply stream exactly when the resource is called response |
| TopicSet.StreamTopics | internal/service/topics.go:41-55 | the topics on the reply streams are exactly the replies to one-level peers and one-level request ids |
| TopicSet.TenantsAreSeparate | internal/service/topics.go:20-55 | by both matchers, no transfer filter of a one-level tenant takes a transfer topic of another |
| TopicSet.PlainTenantsAreSeparate | internal/service/topics.go:20-55 | for tenants of any depth, no filter of names and plus levels takes a transfer topic of another tenant |
| TopicSet.HashCrossesTenants | internal/service/topics.go:20-55 | with a hash level a filter takes every transfer topic of the tenants below its own |
| MqttBridge.Bridge.OnMessage | internal/adapter/mqtt_bridge.go:40-80 | one delivery: each matching mapping forwards once, in order |
| MqttBridge.ForwardsInOrder | internal/adapter/mqtt_bridge.go:40-80 | each mapping publishes once if its source takes the topic, to the rewritten topic, behind the earlier ones |
| MqttBridge.StripsOneOfEach | internal/adapter/mqtt_bridge.go:45-50 | the stripped pattern is the pattern without one hash and then one plus at its end |
| MqttBridge.ReplacesTheFirst | internal/adapter/mqtt_bridge.go:45-50 | the first occurrence, and it alone, is replaced |
| MqttBridge.TrailingMatch | internal/adapter/mqtt_bridge.go:45-50 | what a filter with one trailing wildcard takes, in terms of strings |
| MqttBridge.RewriteAgreesWithMatching | internal/adapter/mqtt_bridge.go:45-50 | every matched topic except the bare parent moves to the target prefix with the same suffix, and matches the target filter |
| MqttBridge.BridgeForwards | internal/adapter/mqtt_bridge.go:40-80 | all that the bridge publishes for such a mapping on one delivery, for every topic |
| BridgeLoop.HashChainsEndIff | internal/adapter/mqtt_bridge.go:44-50 | a message under the prefix of a hash mapping stops coming back if and only if neither prefix begins with the other; the bare parent never does |
| BridgeLoop.PlusChainsEndIff | internal/adapter/mqtt_bridge.go:44-50 | a message that a plus mapping forwards stops coming back if and only if the two prefixes differ |
| MqttBridge.PlainMapping | internal/adapter/mqtt_bridge.go:45-50 | a wildcard-free source takes one topic and sends it exactly to its target |
| MqttBridge.InnerWildcardForwardsInPlace | internal/adapter/mqtt_bridge.go:45-86 | a source with an inner wildcard never moves a message |
| CoapCodec.EncodeCoapOption | internal/adapter/coap_bridge.go:410-433 | the option as the encoder appends it, extension bytes included |
| CoapCodec.NibbleIsRfc | internal/adapter/coap_bridge.go:423-433 | nibble and extension bytes as section 3.1 of RFC 7252 numbers them, up to 65804 |
| CoapCodec.OptionReadsBack | internal/adapter/coap_bridge.go:410-433 | for every delta and value, the option read field by field |
| CoapCodec.BuildCoapRequest | internal/adapter/coap_bridge.go:378-408 | the bridge's request packet |
| CoapCodec.BuildCoapPacket | api/handler.go:885-928 | the second builder writes the same packet, for every input |
| CoapCodec.PacketReadsBack | internal/adapter/coap_bridge.go:378-408 | the built packet read byte by byte: version, type, token length, request code, message id, path option, marker and payload |
| CoapCodec.ParseCoapPayload | internal/adapter/coap_bridge.go:435-489 | the loop terminates, stays inside the buffer and computes the parse |
| CoapCodec.ParseCoapPayloadBytes | api/handler.go:930-965 | the second parser gives the same answer on every input |
| CoapPacket.PacketRoundTrip | internal/adapter/coap_bridge.go:435-489 | for any token, any encodable options and any payload the parser returns exactly the payload |
| CoapPacket.EncodedRoundTrip | internal/adapter/coap_bridge.go:410-489 | the same for options written with the program's own encoder |
| CoapPacket.RequestRoundTrip | internal/adapter/coap_bridge.go:378-489 | the parser gives back the payload of every built request whose path fits its length field |
| CoapPacket.FieldRoundTripIff | internal/adapter/coap_bridge.go:423-433 | a delta or length is read back if and only if it is at most 65804 |
| CoapPacket.ParserExact | internal/adapter/coap_bridge.go:435-489 | a non-empty payload is returned exactly for the packets of the grammar that carry it |
| CoapPacket.ParseIsSuffix | internal/adapter/coap_bridge.go:435-489 | on arbitrary bytes the answer is a suffix of the input |
| CoapPacket.LongPathBreaksRoundTrip | internal/adapter/coap_bridge.go:378-433 | for every longer path length, method, message id and non-empty payload, an ASCII path makes the parser return less than the payload |
| CoapPacket.RequestRoundTripIff | internal/adapter/coap_bridge.go:378-489 | all requests with an ASCII path of length n give their payload back if and only if n is at most 65804 |
| CoapQueue.TaskQueue.EnqueueTask | internal/adapter/coap_bridge.go:115-133 | queued at the end exactly while the bridge runs and the queue has room; dead-lettered with its reason exactly while it runs and the queue is full; else nothing changes |
| CoapQueue.OfferIsDecided | internal/adapter/coap_bridge.go:115-133 | the same for every state of the pool |
| CoapQueue.TaskQueue.Receive | internal/adapter/coap_bridge.go:104-113 | a worker takes the oldest task |
| CoapQueue.RunInv | internal/adapter/coap_bridge.go:67-133 | over every run: tasks accounted for, queue bounded, workers leave only a closed and drained queue |
| CoapQueue.TasksConserved | internal/adapter/coap_bridge.go:104-133 | the offered tasks are, as a multiset, those queued, in hands, handled, dead-lettered, or refused after the stop |
| CoapQueue.StopDrains | internal/adapter/coap_bridge.go:67-74 | when the stop returns everything accepted is handled, if and only if there is a worker or nothing was accepted |
| CircuitBreaker.BreakerIsHistory | internal/adapter/http_bridge.go:257-277 | open exactly when at least three failures follow the last success and the latest is less than five seconds old |
| CircuitBreaker.FailsCountTrailing | internal/adapter/http_bridge.go:257-271 | the counter counts the failures at the end of the history |
| CircuitBreaker.Breaker.MarkFailure | internal/adapter/coap_bridge.go:340-347 | one more failure; from the third on the deadline moves |
| CircuitBreaker.Breaker.MarkSuccess | internal/adapter/coap_bridge.go:349-354 | both fields cleared |
| CircuitBreaker.Breaker.IsCircuitOpen | internal/adapter/coap_bridge.go:356-360 | the two fields decide as the whole history does |
| CircuitBreaker.HttpAttempts | internal/adapter/http_bridge.go:191-255 | at most `retries` attempts, only retriable ones before the last, each marked once; the code after the loop only for fewer than one |
| CircuitBreaker.DoHttp | internal/adapter/http_bridge.go:174-255 | refuses exactly when the history says open, and afterwards stands for the longer history |
| CircuitBreaker.HttpCallInNumbers | internal/adapter/http_bridge.go:191-255 | in terms of what came back: which attempts are repeated, what is returned, and how many failures the breaker has counted by the end |
| CircuitBreaker.CoapAttempts | internal/adapter/coap_bridge.go:264-323 | the same for the CoAP loop, whose deadline and closed-connection errors end a call unmarked |
| CircuitBreaker.DoCoap | internal/adapter/coap_bridge.go:235-323 | circuit, payload size and address checked in that order; running out of attempts is one more failure |
| CircuitBreaker.CoapCallInNumbers | internal/adapter/coap_bridge.go:264-323 | the same for the CoAP loop |

## Left out

- HTTP handlers, routing, middleware, metrics, logging, `cmd/main.go`, `config.go`, `cli.go`: wiring without invariants of its own.
- `auth_peer_service.go`, `stream_service.go`, `hub_discovery.go`, `route_decision.go`, hashed alias topics and `qosForTopic`: they would add easy members only.
- `SendAsync`, `SendSyncAsync`: the same screening and publishing as `SendSync` without the wait.
- The mock client's subscriber map and published list: its matcher is modelled, its bookkeeping is appending to lists.
- JSON and gzip: arbitrary functions; the round trips ask for inverse pairs and JSON text that starts with `{`.
- Sockets, `http.Client`, UDP and TLS: an attempt's outcome is a parameter, so `HttpAttempts` and `CoapAttempts` ask for one outcome per possible attempt. The path, query and header fields that the bridges pass through are not modelled.
- Overflow of Go integers and durations: integers are unbounded, except for the bytes and 16-bit fields of the CoAP codec.
- Races between a registry handler's `Get` and its `Set`: each registry handler is one step.
- Liveness and timing of `SendSync`: `select` may choose the timer even when a reply is ready, so no progress is claimed. A send to a receiver that is already waiting is modelled as a buffered send followed by the receive.
- The race between `enqueueTask` and the closing of its channel in `Stop`: `enqueueTask` is one step.
- Nil: `SendSync` refuses a nil message before anything else, and a Dafny message is never nil. An empty map stands for a nil map as well, since the code looks only at lengths and keys.
- Several mappings feeding each other: `BridgeLoop` follows the chain of one mapping.
- DdDataService.StatusTellsOutcome: tells of one call alone; `SendSyncSystem.StatusTellsCall` is the statement over every run.
- DdDataService.RetryIsServedFromCache: tells of two calls with nothing in between; `SendSyncSystem.AnsweredFromCacheIff` is the statement over every run.
- DdDataService.DdDataService.SendSync: describes one call without other callers in between, because a method runs alone; `ServiceRun.SendSyncIsARun` makes it a run of the system in which other calls may be in flight.
- DdDataService.DdDataService.Exchange: every reply of its call arrives during the wait; replies before the wait are steps of `SyncEngine`.
- SchemaExact.MergeExactIff: for enums that list the empty string the condition reads the merged enum, because what is left of it depends on the order of the merge; `MergeExactIffPlain` reads the providers' schemas.
- SchemaMeaning.MergedEnumExactIff: as `SchemaExact.MergeExactIff`; `SchemaExact.ExactIffShared` is the form for enums without the empty string.
- SchemaMeaning.ProviderOrderIrrelevant: one direction for whole schemas, because what else they require can hide the order; both directions for one field are in `SchemaOrder`.
- PeerRegistry.PeerRegistryService.GetResourceMetaSchema: leaves the order of the providers open, because the store lists them in any order; `SchemaMeaning.ProviderOrderIrrelevant` says when that does not matter.
