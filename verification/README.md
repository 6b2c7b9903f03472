# A model of the realtime relay

This project models the parts of the canvas relay whose correctness is hard to see
by reading: the binary codec of live previews, the block geometry leases, the
outbound queues and their writer, the viewport interest index, the rate limits and
the replay cache, and the fan-out of a room.  The command
`dafny verify dfyconfig.toml` checks the whole project.

## How it is built

Code that changes things step by step is a class with the same fields, and each of
its methods is proved against a function of the old state.  The promises are proved
about those functions, over every input or every run:

| file | what it holds |
|---|---|
| `Wire.dfy` | bytes, varints, ZigZag, strings; `Writer` and `Reader` |
| `Ink.dfy`, `InkCodec.dfy` | quantization, the stroke grammar and its round trips; the loops that write and read a stroke |
| `Preview.dfy`, `Relay.dfy`, `FrameCodec.dfy` | frame bodies, trailers and aggregates; the entry points |
| `Grammar.dfy` | what the bytes of a frame say, piece by piece, and that the decoders accept just that |
| `Leases.dfy`, `LeaseProtocol.dfy` | the lease store and its accounting; runs of the service |
| `Queues.dfy`, `QueueRuns.dfy`, `WritePump.dfy`, `WakeProtocol.dfy` | the queues of one connection, their runs, the two drains, the wake token |
| `CoalesceKeys.dfy` | which previews supersede one another |
| `Interest.dfy` | the grid and the two-way index |
| `Limits.dfy` | token buckets, the session-creation limiter, the nonce cache |
| `Rooms.dfy`, `RoomRuns.dfy` | room membership and relay; interleaved runs of the fan-out |

Conventions.  A mutex-held method is one atomic step that carries its own time.
`float64` is `real`; JSON is the identity on typed payload records whose ids are valid
UTF-8 and whose numbers are finite; 32- and 64-bit integers wrap or truncate where the
code does, written as arithmetic (`&`, `>>`, `|` of disjoint bits and the ZigZag
exclusive-or become `%`, `/`, `+` and a case split).  The clock's times are integers; in
the replay check, where it matters, timestamps and durations are 64-bit and saturate or
wrap as in Go.  The order in which a Go map is walked is arbitrary, so loops over maps
pick any remaining key.  Clocks, the socket, signature checks and whether a batch fits an
aggregate are parameters.  `hide` statements only keep definitions out of a proof.

Where the repository's prose and its code disagree the model follows the code: the
top-level README.md and the comment on `RoomService` call the binary codec and interest
filtering absent, and the comment above `drainReliable` describes one drain of both
queues where there are two.

Some promises hold only under a condition; each is proved to hold if and only if the
condition does.

- A frame reads back exactly when its ids fit the 32-bit length prefix
  (`Preview.ClientRoundTrip`, `Ink.InkRoundTrip`).
- An open peer has every frame addressed to it exactly when no sender is between a refusal
  and the close that follows (`RoomRuns.NoGaps`; `RoomRuns.RefusalLeavesAGap` is a failing
  run).
- The rate bound holds for any order of time when all calls so far are counted
  (`TokenBuckets.AllowedIsBounded`), but counted by their stamps exactly when time never
  goes back (`TokenBuckets.StampedIsBounded`; `TokenBuckets.SteppingBackEscapesTheStamp` is
  a failing input at a usual rate).
- A timestamp and nonce pair just accepted can be accepted once more exactly when
  `NonceCache.Repeatable` says so (`NonceCache.AcceptedAgainWhen`).  For a clock skew whose
  double fits a duration, that is a timestamp 2^63 nanoseconds or more ahead of the clock:
  the difference saturates at the smallest duration, whose negation is itself, so the skew
  test passes (`NonceCache.FarFutureIsAcceptedTwice` is a failing run at the default skew).
  Skews beyond that, which only a configuration of a century and a half gives, make the doubled
  window itself wrap, and the condition covers them too.

## Model

| member | source | states |
|---|---|---|
| Wire.VarintRoundTrip | internal/codec/binary_ephemeral_codec.go:694-760 | every 32-bit value written as a varint reads back, leaving exactly the bytes that follow |
| Wire.VarintShrinks | internal/codec/binary_ephemeral_codec.go:744-760 | an accepted varint, padded or not, takes no more bytes when written again |
| Wire.SvarintRoundTrip | internal/codec/binary_ephemeral_codec.go:705-767 | every int32 survives ZigZag and varint |
| Grammar.VarintGrammar | internal/codec/binary_ephemeral_codec.go:744-760 | a varint is read exactly where one to five bytes stand of which all but the last are marked and a fifth has four bits, and its value is their seven-bit groups, padding included |
| Wire.StringRoundTrip | internal/codec/binary_ephemeral_codec.go:708-776 | a length-prefixed string reads back whatever follows it |
| Wire.Writer.Varint | internal/codec/binary_ephemeral_codec.go:694-704 | the writing loop appends exactly the varint |
| Wire.Reader.Varint | internal/codec/binary_ephemeral_codec.go:744-760 | the five-step reading loop accepts, rejects and advances as the grammar says |
| Wire.Reader.String | internal/codec/binary_ephemeral_codec.go:768-776 | reads exactly the announced bytes or fails when they are not there |
| Ink.InkRoundTrip | internal/codec/binary_ephemeral_codec.go:415-527 | a stroke reads back as the received stroke and stops at its end, if and only if its id fits the prefix |
| Ink.InkAccuracy | internal/codec/binary_ephemeral_codec.go:415-527 | at every index each coordinate is within 1/8 of the original, pressure within 1/255 of the clamped value and exact for neutral, none and full pressure, and the time is the largest so far; pressures and times arrive exactly when every point has one |
| Ink.InkReencodes | internal/codec/binary_ephemeral_codec.go:415-527 | a stroke accepted from the wire is accepted again, in no more bytes, and is received unchanged but for times that no longer go back |
| Ink.RunningMaxIsLatest | internal/codec/binary_ephemeral_codec.go:459-471 | each written time is the maximum of the times up to it |
| Ink.TimesShrink | internal/codec/binary_ephemeral_codec.go:459-525 | wrapped client times never make the relayed time section longer |
| InkCodec.EncodeInk | internal/codec/binary_ephemeral_codec.go:415-473 | the encoding loops append exactly the stroke's bytes and flags, and refuse exactly the unencodable strokes |
| InkCodec.DecodeInk | internal/codec/binary_ephemeral_codec.go:475-527 | the decoding loops read exactly what the grammar says |
| Preview.ClientRoundTrip | internal/codec/binary_ephemeral_codec.go:90-188 | a client frame decodes to what its receiver should see, if and only if its ids fit their prefixes |
| Preview.BodyReencodes | internal/codec/binary_ephemeral_codec.go:145-232 | for all four events, an accepted body can be written again, no longer than it was, with the same meaning |
| Preview.CompactExactlyWhen | internal/codec/binary_ephemeral_codec.go:90-130 | an envelope becomes a binary frame if and only if it is one of the four events, its sequence fits 32 bits, its ids are there, a stroke has at most 4096 points, and its numbers lie in the stated ranges |
| Preview.TransformAccuracy | internal/codec/binary_ephemeral_codec.go:563-674 | places and sizes arrive within 1/8 and the rotation within 1/200 |
| Preview.PointerAccuracy | internal/codec/binary_ephemeral_codec.go:529-561 | both coordinates arrive within 1/8 |
| Grammar.DecodesExactly | internal/codec/binary_ephemeral_codec.go:135-188 | the client decoder accepts exactly the frames of a grammar of pieces, and answers with what the pieces say, byte by byte |
| Grammar.PressureBytesDecode | internal/codec/binary_ephemeral_codec.go:505-511 | on every accepted stroke a pressure byte of 128 is exactly 0.5 and any other byte that many 255ths |
| Grammar.NothingMayFollow | internal/codec/binary_ephemeral_codec.go:170-175 | no accepted frame is the beginning of another: bytes after the body are refused |
| Preview.AcceptedInkBound | internal/codec/binary_ephemeral_codec.go:475-527 | an accepted ink frame has at most 4096 points and at least 2 bytes per point and 11 more |
| Relay.TrailerMeetsBody | internal/codec/binary_ephemeral_codec.go:244-339 | the trailer found from the end of a relayed frame starts where its body ends |
| Relay.RelayPreservesMeaning | internal/codec/binary_ephemeral_codec.go:135-250 | every accepted client frame with ids in UTF-8, stamped with metadata that fits, is accepted for relay; its body is no longer, decodes to the same envelope with steadied times, ends where the trailer starts, and the trailer tells sequence, actor, origin and time |
| Relay.SingleRoundTrip | internal/codec/binary_ephemeral_codec.go:193-380 | the metadata of one relayed frame reads back |
| RelayGrammar.TrailerNamesTheEnvelope | internal/codec/binary_ephemeral_codec.go:234-241 | the stamped trailer holds message, session, channel, actor, origin and time in that order |
| RelayGrammar.SingleReadsExactly | internal/codec/binary_ephemeral_codec.go:329-381 | metadata is read from exactly the frames whose last bytes lead back to a well-formed trailer, and is what the trailer says |
| Relay.AggregateRoundTrip | internal/codec/binary_ephemeral_codec.go:255-329 | an aggregate of 2 to 65535 frames gives each envelope's sequence, actor, origin and non-negative time, in order |
| RelayGrammar.AggregateReadsExactly | internal/codec/binary_ephemeral_codec.go:302-327 | an aggregate is read exactly when its counted, length-prefixed children fill it and each tells of one frame, and tells those in order |
| Relay.DecodeMetadata | internal/codec/binary_ephemeral_codec.go:297-381 | on arbitrary bytes the recursive decoder ends, and 23 bytes are there for every result |
| FrameCodec.EncodeClientFrame | internal/codec/binary_ephemeral_codec.go:90-130 | the entry point writes the client frame or refuses |
| FrameCodec.DecodeClientFrame | internal/codec/binary_ephemeral_codec.go:135-188 | the entry point decodes exactly the accepted frames |
| FrameCodec.EncodeRelayFrame | internal/codec/binary_ephemeral_codec.go:193-250 | the entry point writes the relayed frame or refuses |
| FrameCodec.EncodeRelayAggregate | internal/codec/binary_ephemeral_codec.go:255-282 | the entry point writes the aggregate or refuses |
| FrameCodec.DecodeRelayMetadata | internal/codec/binary_ephemeral_codec.go:297-381 | the recursive loop computes the metadata of any bytes |
| LockStore.MemoryLockStore.Acquire | internal/infrastructure/memory_lock_store.go:40-84 | grants, denies or takes over as the lease table says, and the counters stay a recount of the stored leases |
| LockStore.MemoryLockStore.Renew | internal/infrastructure/memory_lock_store.go:86-110 | extends only a live lease of that id and connection |
| LockStore.MemoryLockStore.Release | internal/infrastructure/memory_lock_store.go:112-132 | removes only a lease of that id and connection |
| LockStore.MemoryLockStore.ReleaseAllForConnection | internal/infrastructure/memory_lock_store.go:136-151 | removes and lists, once each, exactly the connection's leases |
| LockStore.MemoryLockStore.SweepExpired | internal/infrastructure/memory_lock_store.go:153-168 | removes and lists, once each, exactly the lapsed leases |
| LockStore.AccountsAfterRemove | internal/infrastructure/memory_lock_store.go:194-208 | decrementing keeps every session's counter equal to its recount |
| LockService.BlockLockService.Request | internal/application/block_lock_service.go:59-81 | a request is one step of the protocol |
| LeaseProtocol.StoreAgrees | internal/infrastructure/memory_lock_store.go:40-168 | in every run, what a connection may believe from its own answers and what is stored agree |
| LeaseProtocol.ExclusiveBeliefs | internal/application/block_lock_service.go:59-113 | at no moment of any run do two connections hold the same block |
| LeaseProtocol.HoldingPeriodsAreDisjoint | internal/infrastructure/memory_lock_store.go:40-168 | between grants to two connections lies a release, a disconnect, or a full lease length after the last extension |
| LeaseProtocol.RequestAnswer | internal/infrastructure/memory_lock_store.go:40-84 | a request is denied exactly for a live hold of another, named, or a full session; otherwise the lease granted and stored carries the caller's identity and ends one lease length from now |
| LeaseProtocol.RenewalAnswer | internal/infrastructure/memory_lock_store.go:86-110 | a renewal succeeds if and only if the caller holds the block and its own grant of that id is the latest; it moves the stored lease's end to one lease length from now and nothing else |
| LeaseProtocol.ReleaseAnswer | internal/infrastructure/memory_lock_store.go:112-168 | a release succeeds if and only if it names the latest grant, by the connection that grant was for, which has not ended it, and no sweep came after it lapsed; it returns and removes the stored lease |
| LeaseProtocol.CeilingHolds | internal/infrastructure/memory_lock_store.go:68-83 | with sessions bound to connections no session ever stores more leases than the ceiling |
| LeaseProtocol.ExpiryIsBounded | internal/application/block_lock_service.go:79-89 | no stored lease expires later than one lease length from now |
| LeaseProtocol.FreeAfterSilence | internal/application/block_lock_service.go:59-130 | after one lease length of silence by the others a block is not blocked and is granted below the ceiling |
| LeaseProtocol.BlockedByAnotherHolder | internal/application/block_lock_service.go:118-130 | a transform is refused exactly while another connection holds the block, and that connection is named |
| LatestWins.PushKeepsPlaces | internal/transport/queues.go:139-154 | a coalesced stream keeps its place, other streams keep theirs and their frames, and only the oldest are shed |
| LatestWins.PushIsExact | internal/transport/queues.go:139-154 | a push changes the frame of a queued key in place, else appends; only a new key at the limit loses a slot, and it is the oldest alone |
| LatestWins.PushedIsQueued | internal/transport/queues.go:139-154 | with any room the pushed frame is queued under its key, and the length grows by one or stays |
| LatestWins.TakeManyIsPrefix | internal/transport/queues.go:186-223 | taking one by one gives the front of the queue in order |
| Queues.OutboundQueues.PushEphemeral | internal/transport/queues.go:134-157 | the map and order list act as the latest-wins list: replaced in place, appended, or appended with the oldest dropped; the counters count the one frame lost |
| Queues.OutboundQueues.TakeEphemeralBatch | internal/transport/queues.go:203-223 | a batch equals that many single takes |
| Queues.OutboundQueues.PushReliable | internal/transport/queues.go:118-130 | appends and wakes, refuses when full, ignores when closed |
| QueueRuns.RunIsSound | internal/transport/queues.go:134-223 | in every run keys are distinct, the limit holds, each key has its newest push, and each accepted push is taken, superseded, shed or pending, exactly once |
| QueueRuns.NothingVanishes | internal/transport/queues.go:134-238 | accepted = taken + dropped + pending |
| QueueRuns.PushIsPending | internal/transport/queues.go:134-157 | in every run an accepted push is pending right after its call, and it loses one frame at most: its own key's, or at the limit the oldest |
| QueueRuns.LedgerMirrorsQueue | internal/transport/queues.go:134-223 | the history follows the very queue: same contents, drop count and output |
| CoalesceKeys.SameStream | internal/application/room_service.go:411-440 | two previews share a key exactly when connection, event and subject agree and the event is not an ink delta |
| CoalesceKeys.StreamsByField | internal/application/room_service.go:424-440 | strokes are told apart by stroke id and blocks by block id whatever their page, cursors by page alone |
| CoalesceKeys.InkDeltasSurvive | internal/application/room_service.go:411-417 | ink deltas are lost only by shedding, and the survivors leave in push order |
| WakeProtocol.NoLostWakeup | internal/transport/queues.go:118-130 | in every interleaving a queued frame outside the drain has a token set or a sender about to set it, and frames are written in order |
| WakeProtocol.EveryFrameIsWritten | internal/transport/ws_connection.go:150-187 | owed steps run out within a known bound, and then every accepted frame is written unless the writer is gone |
| WritePump.Pump.DrainReliable | internal/transport/ws_connection.go:173-187 | writes the queue in order until empty, or up to the failing write, which closes |
| WritePump.Pump.DrainEphemeral | internal/transport/ws_connection.go:189-209 | sends all queued previews in order, aggregated or frame by frame, exactly when the socket takes the writes that needs; else a prefix and the connection is closed |
| WritePump.WithAggregates | internal/transport/ws_connection.go:189-209 | when batches encode a drain needs one write for each 64 frames or fewer |
| Grid.Cells | internal/domain/interest.go:83-100 | lists each covered cell once and no other |
| InterestIndex.DeliveryBounds | internal/infrastructure/memory_interest_index.go:69-95 | in every run, for the surviving report, points inside or within 512 units are delivered and delivered points are closer than 1536 units, negative coordinates included |
| RoomService.WhoSeesAPreview | internal/application/room_service.go:204-215 | who sees a preview, by event and payload field: preferences gate their own events, live ink is not filtered by place, another page hides, no point falls back to the page, a point is filtered near the viewport |
| Grid.FilterBoundsAreSharp | internal/domain/interest.go:83-104 | neither margin can be moved by one unit |
| InterestIndex.MemoryInterestIndex.Update | internal/infrastructure/memory_interest_index.go:33-45 | replaces one report; both directions agree and no empty map remains |
| InterestIndex.MemoryInterestIndex.Remove | internal/infrastructure/memory_interest_index.go:47-57 | forgets one report; both directions agree and no empty map remains |
| InterestIndex.MemoryInterestIndex.RemoveNote | internal/infrastructure/memory_interest_index.go:111-121 | forgets a note's reports; both directions agree and no empty map remains |
| InterestIndex.MemoryInterestIndex.Interested | internal/infrastructure/memory_interest_index.go:69-95 | the cell lookup gives the answer of the report alone |
| InterestIndex.LastReportsSurvive | internal/infrastructure/memory_interest_index.go:33-121 | after any run each connection has its surviving report, if any |
| InterestIndex.IndexIsDetermined | internal/infrastructure/memory_interest_index.go:131-179 | the reports determine every inner map, whatever calls led to them |
| TokenBuckets.TokenBucket.Allow | internal/security/rate_limiter.go:34-48 | one call on the bucket |
| TokenBuckets.AllowedIsBounded | internal/security/rate_limiter.go:24-48 | for calls in any order of time, those allowed are at most the tokens at the start and what the rate brought, and tokens stay within the burst |
| TokenBuckets.AllowedExactlyWhen | internal/security/rate_limiter.go:24-48 | a call is allowed if and only if in no window of calls ending with it the allowed calls would pass the burst and what the rate brought in that window |
| TokenBuckets.StampedIsBounded | internal/security/rate_limiter.go:34-48 | counted by their time stamps, the allowed calls keep the bound from every bucket and up to every moment if and only if time never goes back between the calls |
| TokenBuckets.SteppingBackEscapesTheStamp | internal/security/rate_limiter.go:38-41 | a bucket of burst two at one token a second allows three calls stamped at its start when one call in between is later |
| TokenBuckets.SpacedCallsAreAllowed | internal/security/rate_limiter.go:34-48 | a caller that keeps the rate is never refused |
| BootstrapLimits.BootstrapLimiter.AllowIP | internal/security/bootstrap_limiter.go:57-74 | sweeps, finds or makes the bucket and spends from it, no other bucket changed |
| BootstrapLimits.BootstrapLimiter.AllowUser | internal/security/bootstrap_limiter.go:77-90 | finds or makes the bucket and spends from it, no other bucket changed |
| BootstrapLimits.EachKeyHasItsOwnBucket | internal/security/bootstrap_limiter.go:57-111 | in every run the answers to one address or user are those of a bucket of its own, made at its first call, whatever other keys and sweeps do |
| BootstrapLimits.KeyAllowedExactlyWhen | internal/security/bootstrap_limiter.go:57-111 | call by call, exactly when an address or user is let through, from its own times and answers |
| BootstrapLimits.GrantsToAKeyAreBounded | internal/security/bootstrap_limiter.go:57-111 | from its first call on a key is granted at most its burst and what its rate brings |
| BootstrapLimits.SpacedKeyIsNeverRefused | internal/security/bootstrap_limiter.go:57-111 | a key that keeps its rate is never refused |
| BootstrapLimits.UnlimitedKeysPass | internal/security/bootstrap_limiter.go:57-80 | an empty key, or a dimension without rate or burst, is never refused and leaves no trace |
| BootstrapLimits.SweepingIsUnobservable | internal/security/bootstrap_limiter.go:57-111 | every answer of every run is the one a limiter that never sweeps gives |
| BootstrapLimits.SweepForgetsTheFull | internal/security/bootstrap_limiter.go:92-111 | a sweep comes exactly a minute or more after the last and forgets exactly the full buckets |
| NonceCache.HMACValidator.Validate | internal/security/hmac_request_validator.go:107-153 | the checks in their order, the saturating difference and the wrapping negation of the skew test included, and the nonce remembered last |
| NonceCache.VerdictExplained | internal/security/hmac_request_validator.go:107-187 | for every call of every run, which verdict it gets, from the headers, the key, the clock, the signature and the earlier acceptances; only a pass of all checks is accepted |
| NonceCache.OtherVerdictsChangeNothing | internal/security/hmac_request_validator.go:107-187 | a call that is not accepted leaves the cache as it was |
| NonceCache.AcceptedAtMostOnce | internal/security/hmac_request_validator.go:127-187 | although old entries are forgotten, no timestamp and nonce pair is accepted twice in a run, unless it was repeatable when first accepted |
| NonceCache.AcceptedAgainWhen | internal/security/hmac_request_validator.go:127-187 | a pair just accepted can be accepted again in some continuation of the run if and only if it is repeatable: for usual skews, its timestamp is at least 2^63 nanoseconds ahead |
| NonceCache.FarFutureIsAcceptedTwice | internal/security/hmac_request_validator.go:129-135 | at the default skew, a run of three requests accepts a pair stamped in the year 2603 twice |
| NonceCache.PrunedAfterAcceptance | internal/security/hmac_request_validator.go:170-187 | an acceptance adds its nonce and keeps exactly the others not before the cutoff; while twice the skew fits a duration nothing older than that is left |
| RoomStore.MemoryRoomStore.Join | internal/infrastructure/memory_room_store.go:28-40 | enters one connection in its note's room only |
| RoomStore.MemoryRoomStore.Leave | internal/infrastructure/memory_room_store.go:43-59 | removes one id from one room, and an emptied room altogether |
| RoomStore.MemoryRoomStore.Peers | internal/infrastructure/memory_room_store.go:66-79 | a snapshot of exactly the others, each once |
| RoomStore.MemoryRoomStore.ConnectionByID | internal/infrastructure/memory_room_store.go:86-92 | finds a connection of that note only |
| Events.ClassesByName | internal/domain/envelope.go:59-126 | each class by its event names and prefixes; no known event is durable, and an unknown one is reliable |
| RoomService.RoomService.Relay | internal/application/room_service.go:177-231 | by event name: negotiation reaches only the named peer below the ceiling, previews only the keyed queues of those they are for, everything else every peer's reliable queue or closes the peer |
| RoomService.RoomService.RelayToPeer | internal/application/room_service.go:240-268 | the four rejections in their order; only the named peer of the sender's own room gets the frame |
| RoomService.RoomService.BroadcastReliable | internal/application/room_service.go:379-386 | every peer gets the frame, is closed already, or is closed by the refusal |
| RoomRuns.NoGaps | internal/application/room_service.go:177-289 | in every interleaving an open peer has, in order, exactly the sends addressed to it, if and only if no sender is about to close it; queues keep their bound |
| RoomRuns.FanoutReachesAll | internal/application/room_service.go:204-223 | a finished fan-out left its own frame, not just an equal one, with every target or closed it |
| RoomRuns.RefusalCloses | internal/application/room_service.go:217-222 | after a refusal the sender's next step is to close that peer, and it stays closed |
| RoomRuns.RefusalLeavesAGap | internal/application/room_service.go:217-222 | a run of five steps after which an open peer lacks a frame addressed to it |
| RoomRuns.SendThenCloseIsSent | internal/application/room_service.go:217-222 | the two steps of a refused send together are the service's one call |

## Left out

- Relay.RelayPreservesMeaning: requires payload ids in valid UTF-8; JSON replaces other bytes, and what that does to a relayed id is not modelled.
- Ink.InkAccuracy: over real numbers; the rounding of `float64` is not modelled, and NaN or infinite coordinates, which JSON cannot carry, are not values of the model.
- InterestIndex.DeliveryBounds: requires the corners of the viewport and the point inside the range of a 64-bit `int`; what a conversion from outside it gives depends on the machine.
- CoalesceKeys.InkDeltasSurvive: the delta counter is unbounded; two keys could meet only after 2^64 deltas.
- Wire.Writer.U64: the fixed-width integers are appended as their little-endian bytes; the patching of a preallocated header is not a separate step.
- LockStore.MemoryLockStore.Acquire: the nil lock guard is left out, since the service never passes one; leases are values, so the cloning of what goes in and out is not modelled.
- Lease expiries and the elapsed times of the token buckets do not saturate at the 292 years a duration can hold.
- WakeProtocol.EveryFrameIsWritten: fairness of the scheduler and the 8 ms ticker are not modelled; the bound counts steps.
- The room service's own Join and Leave, which combine a change of membership with a roster and a presence broadcast, are steps of `RoomRuns`; the roster and direct replies are best effort there, as their errors are ignored in the code.
- JWT validation, HMAC digests, tickets and random ids: foreign cryptography; whether a signature verifies is a parameter.
- HTTP, WebSocket and QUIC input and output, close reasons, configuration, logging and metrics.
- JSON text, origin patterns and address parsing.
- Session refresh, the ticket and session stores, permissions and history previews: they would add only easy members.
- The shutdown drain: a frame in a writer's hand is not counted as pending, so a zero is no statement about it.
- That every ended lease is announced: a takeover of a lapsed lease reports nothing.
- The load tool and the scripts.
