# moq-rs: MoQT namespaces, the subscriber session and the relay's routing tables, in Dafny

This project models the core of moq-rs, an implementation of Media over QUIC
Transport (MoQT, draft 14) and of a relay built on it.

- **Track namespaces** (`TrackNamespaces`). A namespace is a tuple of at most 32
  byte-string fields. The model covers:
  - its wire encoding: a field count, then each field as a length-prefixed byte
    string, with every number a QUIC variable-length integer (section 16 of
    RFC 9000, module `VarInt`);
  - its conversions from field lists and `/`-paths, and back to a path.
- **The subscriber half of a session** (`Subscribers.Subscriber`). The model
  covers:
  - the announce table and queue;
  - the table of outstanding subscriptions and the track-alias map;
  - the outgoing control queue;
  - the request-id counter shared with the publisher half, which counts in steps
    of 2 modulo 2^64;
  - the handlers for each control message a publisher sends;
  - the reading of objects from a subgroup stream.
- **Session setup and dispatch** (`Sessions`): version negotiation in
  `connect` and `accept`, where each side's request ids start, and the
  `run_recv` loop that routes each control message to the right half.
- **The relay's local registry** (`LocalTracks.Locals`): namespaces published
  on this relay, found by the longest field-wise prefix of a requested namespace.
- **The relay's remote caches** (`Remotes`): one remote per origin URL, one
  track per (namespace, name) on each remote, and FIFO queues of requests
  waiting to be served.
- **Coordinators** (`Coordinators`, `FileCoordinators`, `ApiCoordinators`): the
  registration and lookup vocabulary, and the two backends.
  - The file backend keeps a shared map from namespace path to relay URL. Its
    lookup tries the exact path first, then the longest `/`-wise candidate.
  - The HTTP backend keeps the registry on a moq-api server. Its lookup maps the
    server's answer to an origin or `NamespaceNotFound`.

Outside effects become inputs of the model:
- What a serve-layer call returns (closing an announce, telling a subscription it
  succeeded or failed, handing it a datagram) is an `Option<ServeError>` parameter.
- Whether an HTTP request to the registry fails is a `bool` parameter.
- What the coordinator's lookup returned is the parameter of `RemotesState.Route`.
- Whether a shared `State` can still be written is the `open` field of its owner.
- Whether a remote track's drop guard still exists is the `alive` flag of its
  table entry.
- `HashMap` iteration order and `read_chunk`'s chunk sizes are left open with `:|`.
  Each contract holds for every order and every chunking.

Behaviour the model keeps on purpose:
- `from_utf8_path` keeps empty pieces, so the path `to_utf8_path` prints comes
  back with an extra empty first field (`TrackNamespaces.FromPathOfToPath`). The
  file coordinator rebuilds a prefix match's namespace this way, so that namespace
  starts with an empty field.
- The file coordinator's prefix test zips the `/`-pieces. A registration that
  extends the query therefore also counts, and the empty namespace matches every
  query (`FileCoordinators.CandidateIsPrefixEitherWay`).
- `register` in the file coordinator replaces another relay's claim without a
  conflict check. No backend ever produces `NamespaceAlreadyRegistered`.
- `connect` does not check the version the server chose.

## Model

| member | source | states |
|---|---|---|
| VarInt.Encode | moq-transport/src/coding/track_namespace.rs:86 | a number encodes iff it is at most 2^62-1; the encoding has 1, 2, 4 or 8 bytes and its first byte's two top bits give that length; a larger number fails with `BoundsExceeded` |
| VarInt.Decode | moq-transport/src/coding/track_namespace.rs:64 | decoding fails (asking for more bytes) exactly when the buffer is shorter than the length its first byte announces; otherwise it consumes exactly that many bytes |
| VarInt.RoundTrip | moq-transport/src/coding/track_namespace.rs:64-86 | decoding the encoding of any number up to 2^62-1, followed by anything, gives back the number and the encoding's length |
| VarInt.SingleByte | moq-transport/src/coding/track_namespace.rs:185-193 | numbers below 64 encode as the single byte holding them (the counts and lengths of the test bytes) |
| TrackNamespaces.FirstTooLarge | moq-transport/src/coding/track_namespace.rs:117-124 | finds the first field over 4096 bytes: every earlier field is within the limit; `None` iff all are |
| TrackNamespaces.TryFromFields | moq-transport/src/coding/track_namespace.rs:107-127 | more than 32 fields gives `TooManyFields(len, 32)` before any size check; otherwise success iff every field is at most 4096 bytes, with the fields kept unchanged, and failure is `FieldTooLarge(len, 4096)` of the first oversized field |
| TrackNamespaces.NonEmptyKeepsNonEmpty | moq-transport/src/coding/track_namespace.rs:135 | dropping empty pieces leaves a list without empty pieces unchanged |
| TrackNamespaces.NonEmptyKeepsPieces | moq-transport/src/coding/track_namespace.rs:135 | dropping empty pieces keeps only pieces of the input |
| TrackNamespaces.TryFromStr | moq-transport/src/coding/track_namespace.rs:129-148 | succeeds iff the non-empty `/`-pieces of the path number at most 32 and each is at most 4096 bytes; more than 32 gives `TooManyFields`; the fields are those pieces in order, each non-empty, free of `/` and within the size limit |
| TrackNamespaces.ToUtf8Path | moq-transport/src/coding/track_namespace.rs:46-53 | the loop builds the path that puts `/` before every field (empty namespace: empty path) |
| TrackNamespaces.FromUtf8Path | moq-transport/src/coding/track_namespace.rs:38-44 | the byte loop yields exactly the `/`-pieces of the path, empty ones included |
| TrackNamespaces.SplitPathOf | moq-transport/src/coding/track_namespace.rs:38-53 | for fields without `/`, splitting the printed path gives an empty piece followed by the fields |
| TrackNamespaces.FromPathOfToPath | moq-transport/src/coding/track_namespace.rs:38-53 | `from_utf8_path(to_utf8_path(ns))` has one more field than `ns`: an empty one in front |
| TrackNamespaces.StrOfPathRoundTrip | moq-transport/src/coding/track_namespace.rs:129-140 | parsing a printed path with `TryFrom<&str>` is validating the original fields, and gives back the namespace when it is valid, for fields that are non-empty and hold no `/` |
| TrackNamespaces.TryFromStrReparse | moq-transport/src/coding/track_namespace.rs:129-140 | printing a namespace that `TryFrom<&str>` built and converting the printed path again gives the same namespace |
| TrackNamespaces.EncodeField | moq-transport/src/coding/track_namespace.rs:87-89 | a field encodes iff its length is a valid variable-length integer |
| TrackNamespaces.EncodeFieldsSuccess | moq-transport/src/coding/track_namespace.rs:87-89 | the field list encodes iff every field's length is encodable |
| TrackNamespaces.EncodeSucceeds | moq-transport/src/coding/track_namespace.rs:80-91 | a namespace encodes iff it has at most 32 fields and every field's length is encodable |
| TrackNamespaces.EncodeFieldsPrefixFailure | moq-transport/src/coding/track_namespace.rs:87-89 | a field that cannot be encoded stops the encoding with its error, whatever follows |
| TrackNamespaces.Encode | moq-transport/src/coding/track_namespace.rs:79-91 | the loop computes the specified encoding: `FieldBoundsExceeded("TrackNamespace tuples")` above 32 fields, else the count followed by each field |
| TrackNamespaces.DecodeField | moq-transport/src/coding/track_namespace.rs:73 | a decoded field never consumes more than the buffer holds |
| TrackNamespaces.DecodeFields | moq-transport/src/coding/track_namespace.rs:71-74 | reading k fields gives exactly k fields and an offset within the buffer |
| TrackNamespaces.DecodeSpec | moq-transport/src/coding/track_namespace.rs:62-76 | a decoded namespace has at most 32 fields and consumes no more than the buffer |
| TrackNamespaces.DecodeSpecFields | moq-transport/src/coding/track_namespace.rs:62-76 | once a count of at most 32 is read, decoding fails as reading that many fields fails, and otherwise gives those fields and the offset after them |
| TrackNamespaces.Decode | moq-transport/src/coding/track_namespace.rs:62-76 | the loop computes the specified decoding: a count above 32 is refused before any field is read; a truncated field fails |
| TrackNamespaces.DecodeFieldsPrefixFailure | moq-transport/src/coding/track_namespace.rs:72-74 | once a field fails to decode, reading more fields fails the same way |
| TrackNamespaces.FieldRoundTrip | moq-transport/src/coding/track_namespace.rs:73-88 | a field decodes back from its encoding, whatever follows it |
| TrackNamespaces.FieldsRoundTrip | moq-transport/src/coding/track_namespace.rs:72-89 | a list of fields decodes back from its encoding, at any offset and whatever follows |
| TrackNamespaces.RoundTrip | moq-transport/src/coding/track_namespace.rs:196-197 | decoding the encoding of any encodable namespace, followed by anything, gives back the namespace and the encoding's length |
| TrackNamespaces.CountThenFields | moq-transport/src/coding/track_namespace.rs:62-91 | an encoded count of at most 32 followed by the encodings of that many fields, then anything, decodes to those fields and consumes both parts exactly |
| TrackNamespaces.SplitFour | moq-transport/src/coding/track_namespace.rs:179 | four `/`-free pieces joined by `/` split back into those four |
| TrackNamespaces.ExamplePathSplits | moq-transport/src/coding/track_namespace.rs:179 | `test/path/to/resource` has the four fields `test`, `path`, `to`, `resource` |
| TrackNamespaces.EncodeFieldsSnoc | moq-transport/src/coding/track_namespace.rs:87-89 | encoding one more field appends that field's encoding |
| TrackNamespaces.SmallFieldEncoding | moq-transport/src/coding/track_namespace.rs:186-193 | a field shorter than 64 bytes encodes as one length byte followed by its bytes |
| TrackNamespaces.ExampleEncoding | moq-transport/src/coding/track_namespace.rs:176-195 | the four fields of the example path encode to exactly the bytes of the test: 0x04, then 0x04 `test`, 0x04 `path`, 0x02 `to`, 0x08 `resource` |
| TrackNamespaces.ExampleFieldsEncoding | moq-transport/src/coding/track_namespace.rs:186-193 | the four example fields, without the count, encode to their one-byte lengths and bytes in order |
| TrackNamespaces.LeadingSlashKeepsEmptyField | moq-transport/src/coding/track_namespace.rs:38-44 | `/a` splits into two pieces, an empty one and `a` |
| TrackNamespaces.ExampleTryFromStr | moq-transport/src/coding/track_namespace.rs:244-248 | `TryFrom<&str>` of the example path has four fields and prints as `/test/path/to/resource` |
| TrackNamespaces.ExamplePathOf | moq-transport/src/coding/track_namespace.rs:244-247 | `to_utf8_path` of the four example fields is `/test/path/to/resource` |
| TrackNamespaces.TooManyFieldsRefused | moq-transport/src/coding/track_namespace.rs:216-229 | 33 fields are refused by `encode` with `FieldBoundsExceeded` and by the field-list conversion with `TooManyFields(33, 32)` |
| TrackNamespaces.FieldTooLargeRefused | moq-transport/src/coding/track_namespace.rs:296-306 | a single 4097-byte field gives `FieldTooLarge(4097, 4096)` |
| TrackNamespaces.DecodeCountTooLarge | moq-transport/src/coding/track_namespace.rs:232-241 | a count of 33 is refused with `FieldBoundsExceeded` whatever bytes follow |
| Text.Split | moq-transport/src/coding/track_namespace.rs:40 | every text splits into at least one piece; the empty text into one empty piece |
| Text.SplitConcat | moq-transport/src/coding/track_namespace.rs:40 | splitting `a/b` gives the pieces of `a` followed by those of `b` |
| Text.SplitNoSeparator | moq-transport/src/coding/track_namespace.rs:40 | a text without `/` is a single piece |
| Text.SplitLength | moq-transport/src/coding/track_namespace.rs:40 | the number of pieces is the number of separators plus one |
| Text.SplitPiecesFree | moq-transport/src/coding/track_namespace.rs:134 | no piece of a split holds a `/` |
| Text.ZipAgreeIsPrefixEitherWay | moq-relay-ietf/src/local.rs:61-65 | agreeing along a zip means one sequence is a prefix of the other |
| Messages.ServeStatus | moq-transport/src/session/subscriber.rs:186-190 | a serve-layer call succeeds iff it reports no serve error |
| Subscribers.RequestIdStep | moq-transport/src/session/subscriber.rs:94-96 | one `fetch_add(2)` on the 64-bit counter moves from the k-th id to the next |
| Subscribers.RequestIdParity | moq-transport/src/session/subscriber.rs:47-51 | every id has the parity of the first, even after wrapping at 2^64 |
| Subscribers.RequestIdsDistinct | moq-transport/src/session/subscriber.rs:94-96 | no id repeats within 2^63 requests |
| Subscribers.ObjectIdsNonDecreasing | moq-transport/src/session/subscriber.rs:543 | object ids along a subgroup stream never decrease |
| Subscribers.ObjectIdsIncreasing | moq-transport/src/session/subscriber.rs:543 | with positive deltas, object ids strictly increase |
| Subscribers.ObjectIdStep | moq-transport/src/session/subscriber.rs:543 | each object id is the previous id plus the object's own delta |
| Subscribers.FirstIncomplete | moq-transport/src/session/subscriber.rs:595-606 | the first object the stream ends inside: every earlier object is complete; `None` iff all are |
| Subscribers.Started | moq-transport/src/session/subscriber.rs:464-625 | the loop starts at most as many objects as the stream holds |
| Subscribers.StartedAllComplete | moq-transport/src/session/subscriber.rs:595-606 | when every object is complete the stream never fails and every object is started |
| Subscribers.StartedAtIncomplete | moq-transport/src/session/subscriber.rs:595-606 | a stream that ends inside object k, after k whole ones, fails there with k + 1 objects started |
| Subscribers.RecordedSnoc | moq-transport/src/session/subscriber.rs:543-617 | handing the next object to the writer extends the record by its announced size, its bytes and its id |
| Subscribers.RemoveSubscribeStep | moq-transport/src/session/subscriber.rs:228-241 | on the tables: the subscription leaves, its recorded alias leaves with it, and the announce tables are untouched |
| Subscribers.RecvStepFailure | moq-transport/src/session/subscriber.rs:142-194 | a handler fails iff the message is a repeated PUBLISH_NAMESPACE or one of the unimplemented kinds, and a failing handler changes no table |
| Subscribers.RecvStepUnknownIdNoChange | moq-transport/src/session/subscriber.rs:209-259 | SUBSCRIBE_OK, SUBSCRIBE_ERROR and PUBLISH_DONE for an unknown id succeed and change no table |
| Subscribers.Subscriber.constructor | moq-transport/src/session/subscriber.rs:59-74 | empty tables, open queues, the counter at its first value |
| Subscribers.Subscriber.IssuedIdsShareParity | moq-transport/src/session/subscriber.rs:47-51 | every request id in the tables has the parity of the first |
| Subscribers.Subscriber.GetNextRequestId | moq-transport/src/session/subscriber.rs:94-96 | returns the counter and advances it by 2 modulo 2^64; the id keeps its parity and was not given out before, within 2^63 requests |
| Subscribers.Subscriber.Subscribe | moq-transport/src/session/subscriber.rs:115-121 | takes a fresh request id and records the subscription under it, overwriting no existing one; alias consistency is preserved |
| Subscribers.Subscriber.TrackStatus | moq-transport/src/session/subscriber.rs:98-112 | queues a TRACK_STATUS with a fresh id, priority 127 and forwarding on; the announce table is unchanged |
| Subscribers.Subscriber.SendMessage | moq-transport/src/session/subscriber.rs:124-139 | PUBLISH_NAMESPACE_CANCEL first drops its namespace; the message is queued, or lost if the queue is closed |
| Subscribers.Subscriber.DropPublishNamespace | moq-transport/src/session/subscriber.rs:270-272 | removes exactly that namespace |
| Subscribers.Subscriber.RecvPublishNamespace | moq-transport/src/session/subscriber.rs:173-194 | an announced namespace is a `Duplicate` with the table unchanged; a refused queue closes the announce with `Cancel`, returns what closing returned and records nothing; otherwise exactly that namespace is added and queued |
| Subscribers.Subscriber.RecvPublishNamespaceDone | moq-transport/src/session/subscriber.rs:197-206 | the namespace is removed; its receiver's answer is returned only when it was present |
| Subscribers.Subscriber.RecvSubscribeOk | moq-transport/src/session/subscriber.rs:209-225 | for a known id the alias maps to it and the subscription records the alias; an unknown id changes nothing; alias consistency is kept when the alias is not rebound |
| Subscribers.Subscriber.RemoveSubscribe | moq-transport/src/session/subscriber.rs:228-241 | removes the subscription and its recorded alias, nothing else; returns what was removed |
| Subscribers.Subscriber.RecvSubscribeError | moq-transport/src/session/subscriber.rs:244-250 | removes the subscription and its alias, then reports the close outcome only when it existed |
| Subscribers.Subscriber.RecvPublishDone | moq-transport/src/session/subscriber.rs:253-259 | the same as SUBSCRIBE_ERROR, with the status code |
| Subscribers.Subscriber.RecvMessage | moq-transport/src/session/subscriber.rs:142-170 | the six unimplemented kinds fail with their names; `Duplicate` iff a repeated PUBLISH_NAMESPACE; a serve error is not a session error; each message touches only its own tables |
| Subscribers.Subscriber.SubscribeIdByAlias | moq-transport/src/session/subscriber.rs:276-292 | without a timeout: the alias's request id iff it is mapped, and that id was issued |
| Subscribers.Subscriber.RecvDatagram | moq-transport/src/session/subscriber.rs:687-715 | a datagram for a live subscription gets that subscription's answer; an unknown alias is discarded with success |
| Subscribers.Subscriber.ReadPayload | moq-transport/src/session/subscriber.rs:594-617 | the chunk loop copies exactly `payload_length` bytes, in any chunking, or reports that the stream ended first |
| Subscribers.Subscriber.RecvSubgroup | moq-transport/src/session/subscriber.rs:449-635 | succeeds iff no object is cut short, otherwise `WrongSize`; each started object gets the running sum of deltas as its id and its announced size with its bytes |
| Sessions.LargestCommon | moq-transport/src/session/mod.rs:56-61 | the result is in both lists and at least every common element; `None` iff there is none |
| Sessions.LargestCommonSymmetric | moq-transport/src/session/mod.rs:56-61 | the order of the two lists does not matter |
| Sessions.SessionRequestIdParity | moq-transport/src/session/mod.rs:137-138 | a client's ids are even and a server's odd |
| Sessions.Connect | moq-transport/src/session/mod.rs:103-140 | the client offers only draft 14 with `MaxRequestId` 100 and starts its ids at 0 |
| Sessions.ConnectIgnoresServerVersion | moq-transport/src/session/mod.rs:131-139 | the client does not check the version of SERVER_SETUP: any answer leads to the same session |
| Sessions.Accept | moq-transport/src/session/mod.rs:144-195 | succeeds iff the client offers draft 14, answering draft 14 with `MaxRequestId` 100 and starting its ids at 1; otherwise `Version(client's, [draft 14])` |
| Sessions.ConnectThenAccept | moq-transport/src/session/mod.rs:116-169 | a client and server of this implementation always agree on draft 14 |
| Sessions.RunRecv | moq-transport/src/session/mod.rs:270-350 | handles messages in order until the first failure: every handled message reached a present half whose handler succeeded, the subscriber's tables end as its handlers leave them after exactly the handled messages, and a failure is the failing handler's error; a missing half is `RoleViolation`; GOAWAY, MAX_REQUEST_ID and REQUESTS_BLOCKED are `Unimplemented` |
| Sessions.HandlersSucceedAt | moq-transport/src/session/mod.rs:320-338 | where the subscriber handlers succeed along a run, the handler of each subscriber message succeeded on the tables the earlier messages left |
| LocalTracks.MatchesIsPrefix | moq-relay-ietf/src/local.rs:60-65 | the length check plus the zip is exactly "is a field-wise prefix of" |
| LocalTracks.MatchesSameLengthEqual | moq-relay-ietf/src/local.rs:60-65 | two matches of equal length are the same namespace |
| LocalTracks.BestMatchUnique | moq-relay-ietf/src/local.rs:67-70 | the longest match is unique, so map order cannot change the answer |
| LocalTracks.WholeFieldMatching | moq-relay-ietf/src/local.rs:49-75 | matching is on whole fields: `a` matches `a/test` and `a` but not `aa` |
| LocalTracks.Locals.constructor | moq-relay-ietf/src/local.rs:25-29 | an empty table |
| LocalTracks.Locals.Register | moq-relay-ietf/src/local.rs:32-47 | a new namespace is inserted; a present one is `Duplicate` with the table unchanged |
| LocalTracks.Locals.Retrieve | moq-relay-ietf/src/local.rs:51-75 | returns the tracks of a longest registered field-wise prefix of the query; `None` iff no registration with at least one field matches |
| LocalTracks.Locals.DropRegistration | moq-relay-ietf/src/local.rs:84-87 | removes exactly the registered namespace |
| Coordinators.FromForeign | moq-relay-ietf/src/coordinator.rs:18-34 | every foreign error becomes `Other`, keeping its message |
| Coordinators.NamespaceOrigin.WithMetadata | moq-relay-ietf/src/coordinator.rs:85-92 | appends the pair, starting the list when there was none; namespace and URL unchanged |
| Coordinators.NewOrigin | moq-relay-ietf/src/coordinator.rs:77-107 | stores the namespace and URL with no metadata; the accessors return them |
| Coordinators.WithAllMetadataKeepsOrder | moq-relay-ietf/src/coordinator.rs:85-92 | adding pairs one by one to a new origin keeps them all, in order |
| Coordinators.NamespaceRegistration.WithMetadata | moq-relay-ietf/src/coordinator.rs:61-64 | replaces the metadata with the given list, keeping the handle |
| Coordinators.NewRegistration | moq-relay-ietf/src/coordinator.rs:53-58 | wraps the handle with no metadata |
| Coordinators.RegistrationMetadataReplaced | moq-relay-ietf/src/coordinator.rs:61-64 | only the last metadata list given stays |
| Coordinators.DefaultShutdown | moq-relay-ietf/src/coordinator.rs:185-187 | the default shutdown succeeds |
| Remotes.Remote.PendingUnique | moq-relay-ietf/src/remote.rs:334-341 | at most one pending writer per live track |
| Remotes.Remote.constructor | moq-relay-ietf/src/remote.rs:200-209 | a new remote has no tracks, no requests and an open state |
| Remotes.Remote.Upgrade | moq-relay-ietf/src/remote.rs:397-402 | succeeds exactly while the drop guard is alive, giving the stored reader |
| Remotes.Remote.Subscribe | moq-relay-ietf/src/remote.rs:316-342 | a live track is shared with nothing queued; a closed state gives `None` and changes nothing; otherwise a new track is recorded and exactly one writer queued at the back |
| Remotes.Remote.Next | moq-relay-ietf/src/remote.rs:273-293 | pops the oldest writer while open; `None` when closed; waits on an empty open queue |
| Remotes.Remote.DropTrackGuard | moq-relay-ietf/src/remote.rs:410-415 | removes exactly its key while the state is open; afterwards `upgrade` fails either way |
| Remotes.Remote.Close | moq-relay-ietf/src/remote.rs:199-207 | once the other half of the remote's `State` is gone, it can no longer be written; nothing else changes |
| Remotes.RemotesState.constructor | moq-relay-ietf/src/remote.rs:29-38 | empty cache, empty queue, open state |
| Remotes.RemotesState.Route | moq-relay-ietf/src/remote.rs:132-165 | a lookup error is passed on; a cached URL gives its remote and queues nothing; a closed state gives `None` unchanged; otherwise exactly one new remote is cached and queued at the back |
| Remotes.RemotesState.Next | moq-relay-ietf/src/remote.rs:60-72 | pops the oldest remote while open; `None` when closed; waits on an empty open queue |
| Remotes.RemotesState.Finished | moq-relay-ietf/src/remote.rs:99-104 | a finished remote's URL leaves the cache, and nothing else changes |
| Remotes.RemotesState.Close | moq-relay-ietf/src/remote.rs:29-37 | once the other half of the remotes' `State` is gone, it can no longer be written; nothing else changes |
| FileCoordinators.ReadData | moq-relay-ietf/src/bin/moq-relay-ietf/file_coordinator.rs:75-87 | an empty file reads as no registrations; an unparseable one is an error |
| FileCoordinators.ZipAgreeCons | moq-relay-ietf/src/bin/moq-relay-ietf/file_coordinator.rs:217-220 | an agreeing leading piece does not change the zip test |
| FileCoordinators.CandidateIsPrefixEitherWay | moq-relay-ietf/src/bin/moq-relay-ietf/file_coordinator.rs:217-220 | for `/`-free fields, a key is a candidate iff one namespace is a field-wise prefix of the other |
| FileCoordinators.EmptyNamespaceMatchesAll | moq-relay-ietf/src/bin/moq-relay-ietf/file_coordinator.rs:217-220 | the empty namespace's key is a candidate for every query |
| FileCoordinators.FileCoordinator.constructor | moq-relay-ietf/src/bin/moq-relay-ietf/file_coordinator.rs:119-124 | keeps the relay URL and the file |
| FileCoordinators.FileCoordinator.Register | moq-relay-ietf/src/bin/moq-relay-ietf/file_coordinator.rs:129-168 | maps the namespace's path to this relay, overwriting any owner and nothing else; a read error leaves the file alone |
| FileCoordinators.FileCoordinator.UnregisterSync | moq-relay-ietf/src/bin/moq-relay-ietf/file_coordinator.rs:52-72 | removes only the namespace's path, a no-op on the map when absent |
| FileCoordinators.FileCoordinator.Unregister | moq-relay-ietf/src/bin/moq-relay-ietf/file_coordinator.rs:172-180 | the same removal, reporting its result |
| FileCoordinators.FileCoordinator.DropHandle | moq-relay-ietf/src/bin/moq-relay-ietf/file_coordinator.rs:43-49 | the same removal, ignoring its result |
| FileCoordinators.FileCoordinator.Lookup | moq-relay-ietf/src/bin/moq-relay-ietf/file_coordinator.rs:182-246 | the exact path's URL with the queried namespace first; else a longest candidate key, rebuilt by `from_utf8_path`; else `NamespaceNotFound`; the file is not written |
| FileCoordinators.RegisterThenLookup | moq-relay-ietf/src/bin/moq-relay-ietf/file_coordinator.rs:206-210 | after registering, a lookup of the namespace finds the registering relay |
| FileCoordinators.UnregisterThenLookup | moq-relay-ietf/src/bin/moq-relay-ietf/file_coordinator.rs:213-245 | after unregistering, a lookup fails iff no other key is a candidate |
| ApiCoordinators.ApiCoordinatorConfig.WithTtl | moq-relay-ietf/src/bin/moq-relay-ietf/api_coordinator.rs:54-58 | sets the TTL and a refresh interval of half of it, rounded down, keeping both URLs |
| ApiCoordinators.NewConfig | moq-relay-ietf/src/bin/moq-relay-ietf/api_coordinator.rs:43-51 | keeps both URLs, TTL 600 and refresh 300 |
| ApiCoordinators.ConfigsRefreshInTime | moq-relay-ietf/src/bin/moq-relay-ietf/api_coordinator.rs:279-288 | the refresh interval never exceeds the TTL and is below it when the TTL is positive; `with_ttl(120)` refreshes every 60 seconds |
| ApiCoordinators.LookupReply | moq-relay-ietf/src/bin/moq-relay-ietf/api_coordinator.rs:240-249 | an origin gives the queried namespace at its URL with no client; nothing found is `NamespaceNotFound`; a failed request is `Other` |
| ApiCoordinators.RegistryAnswer | moq-relay-ietf/src/bin/moq-relay-ietf/api_coordinator.rs:233-238 | the registry answers with the origin stored under the key, or nothing |
| ApiCoordinators.ApiCoordinator.constructor | moq-relay-ietf/src/bin/moq-relay-ietf/api_coordinator.rs:124-128 | keeps the configuration |
| ApiCoordinators.ApiCoordinator.Register | moq-relay-ietf/src/bin/moq-relay-ietf/api_coordinator.rs:169-210 | stores this relay's URL under the namespace's path; a failed request changes nothing |
| ApiCoordinators.ApiCoordinator.Unregister | moq-relay-ietf/src/bin/moq-relay-ietf/api_coordinator.rs:212-223 | deletes the origin under the namespace's path; a failed request changes nothing |
| ApiCoordinators.ApiCoordinator.DropHandle | moq-relay-ietf/src/bin/moq-relay-ietf/api_coordinator.rs:69-99 | deletes the origin under the namespace's path, ignoring failure |
| ApiCoordinators.ApiCoordinator.Lookup | moq-relay-ietf/src/bin/moq-relay-ietf/api_coordinator.rs:225-250 | asks under the namespace's path and maps the answer; the registry is not changed |
| ApiCoordinators.RegistryKeyAgreement | moq-relay-ietf/src/bin/moq-relay-ietf/api_coordinator.rs:173-229 | register, unregister and lookup use the same key: a lookup after a register finds the relay, one after an unregister finds nothing |

## Left out

- `TrackNamespace::add`, `clear` and `new` (moq-transport/src/coding/track_namespace.rs:26-36) are not separate members. `FromUtf8Path` builds its field list by appending, and the namespace is a value.
- The `TupleField` and variable-length integer codecs are not part of the source files modelled. The model follows section 16 of RFC 9000 for the integers and uses a length-prefixed byte string for a field. `TupleField::decode`'s own checks, such as a 4096-byte limit, are not modelled.
- TrackNamespaces.Encode: yields the complete encoding or an error, and does not model the bytes a failing `encode` has already written to the buffer.
- `to_utf8_path` applies `from_utf8_lossy`, and `TupleField::from_utf8` produces the string's UTF-8 bytes. The model treats text as bytes and has no UTF-8 validation.
- Subscribers.Subscriber.RecvDatagram: looks the alias up once, instead of waiting up to one second for a SUBSCRIBE_OK (a timer and a `Notify`). The datagram's decoding and extension-header logging are not modelled.
- Subscribers.Subscriber.Subscribe: covers the insertion of the subscription only. The SUBSCRIBE message that `Subscribe::new` sends, and waiting until the subscription closes, live in the serve layer, which is not part of this model.
- Subscribers.Subscriber.RecvSubscribeOk: assumes that `SubscribeRecv::ok` records the alias exactly when it succeeds. The serve layer (`subscribe.rs`, `announced.rs`, `publisher.rs`) is not part of this model, so every call into it is an outcome parameter.
- Subscribers.Subscriber.RecvSubgroup: ids are unbounded naturals, so a `u64` overflow of `current_object_id` is not modelled. Object status, extension headers, decoding errors of the object header and the writer's own errors are not modelled.
- `Subscriber::announced`, `Subscriber::accept`/`connect` and `recv_stream` are not modelled: they wait on a queue, a connection or a stream. `recv_track_status_ok` does nothing and is modelled inside `RecvMessage`.
- Session run loops (`run`, `run_send`, `run_streams`, `run_datagrams`): task scheduling over QUIC streams, not modelled. The control stream's codec, the SETUP codec and QUIC itself are not modelled; `Connect` and `Accept` take the decoded SETUP message.
- Sessions.RunRecv: the publisher half is not part of this model, so its result for each message is an input. The debug text of the `Unimplemented` error is shortened to `"message type"`.
- mlog event emission and logging throughout: diagnostics that do not affect behaviour.
- The `Coordinator` trait is not modelled as a Dafny trait. The file and API backends each provide the same operations with the same result types, and `Remotes.RemotesState.Route` takes a lookup result from either.
- `Arc`, `Weak` and `State` lifetimes in remote.rs are modelled as flags. The last reader of a track going away is an explicit call (`DropTrackGuard`), so a `RemoteTrackDrop` that races a new `subscribe` for the same key is not modelled. `into_mut`, `lock_mut` and `modified` all follow the single `open` flag.
- `RemotesProducer::run` and `RemoteProducer::run`: they connect to the origin and serve tasks concurrently, which is not modelled beyond `Next` and `Finished`.
- File locking, JSON (de)serialisation, the blocking-task threads and I/O errors in the file coordinator are not modelled. The only modelled read failure is an unparseable file, and `Url::parse` of a stored URL is taken to succeed.
- The API coordinator's HTTP client, its refresh task and the registry's expiry of stale entries (a timer) are not modelled. Each request's failure is a `bool` input.
- ApiCoordinators.RefreshesInTime: counts the zero refresh interval of a TTL of 0 or 1 second as in time, because the refresh task, where tokio's `interval` panics on a zero period (api_coordinator.rs:139, 199), is not modelled.
- moq-native-ietf/src/quic.rs (QUIC/TLS endpoint setup) is not part of this model.
