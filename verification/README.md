# DataSafeS3: verified core

This project models the stateful and arithmetical core of the DataSafeS3 object store in Dafny and proves what that core
is for. Byte strings of the Go program are `string` values with one character per byte. Times are integers passed to each
step. Hash functions, signatures, base64 and calendar formatting are function-valued parameters; each theorem names what
it needs of them. Code that updates state in place is a class or a method with loops, proved against a pure
specification function. The main results are lemmas about those functions, over all inputs and whole runs.

| Files | Part of the program |
|---|---|
| `Chunked`, `ChunkedTheorems`, `ChunkedChain`, `ChunkedTrailers`, `ChunkReader` | the aws-chunked decoder and encoder, `internal/auth/chunked.go` |
| `CanonicalQuery`, `SigV4`, `SigV4Theorems`, `SigV4Binding`, `SigV4Forgery`, `SigV4Presigned`, `SigV4Signer` | request signing and verification, `internal/auth/sigv4.go`, `internal/auth/client.go` |
| `Rbac`, `RbacClaims` | access resolution and the list filter, `internal/auth/rbac.go`, `internal/api/bucket_object_access.go` |
| `OidcSession`, `OidcExact` | the session cache in front of introspection, `internal/auth/oidc_session.go` |
| `Ulid`, `Outbox` | identifiers and delivery status, `internal/events/event.go` |
| `Listing`, `ListingTheorems`, `ListingExact` | delimited listing in pages, `internal/api/bucket_handlers.go` |
| `KmsJob`, `KmsJobTheorems`, `KmsCollision`, `KmsChanging` | the key-rotation job runner, `internal/api/kms_job_runner.go` |
| `RateLimit`, `RateLimitExact` | the per-address limiter, `internal/api/ratelimit.go` |
| `GatewayQueue`, `GatewayTheorems`, `GatewayOutcomes`, `GatewayPhases`, `GatewayPostgres` | the replication queue, `internal/api/gateway_worker.go` |
| `ReplicaNonces`, `Replica`, `ReplicaTheorems`, `ReplicaAuth`, `ReplicaReplay` | object copies between nodes, `internal/api/ha_object_replica.go` |
| `Strings`, `Clock` | byte-string operations of the Go library: split, join, trim, byte order, sorting; the unit of time |

`dafny verify dfyconfig.toml` checks everything.

Where the code does not do what one would expect of it, the model follows the code:

- The limiter counts in fixed windows, so an interval of one window length can see up to twice the limit less one
  (`RateLimit.RateBound`), and some run does (`RateLimit.BoundReached`).
- Error records of the replication queue are capped at 50, the smallest storage keys going first, and re-issuing failed
  tasks keeps the error counter. So counter, records and failed tasks can differ (`GatewayTheorems.MoreFailuresThanRecords`,
  `GatewayTheorems.CounterAfterRetry`); `GatewayTheorems.CounterIsFailed` and `GatewayTheorems.RecordsAreFailed` say exactly
  when they do not. The worker reads and writes the statistics in separate transactions: a clear between the two is
  undone by the write, whatever the count was (`GatewayPhases.RestoredReached`), and one between the write and the saving
  of a failure leaves that failure uncounted (`GatewayPhases.UncountedReached`); `GatewayPhases.Drift` accounts for both.
  This is the bolt store; over Postgres a clear keeps the counter and the tasks, and a retry the attempts
  (`GatewayPostgres.PgConservation`, `GatewayPostgres.MoreThanAllowed`).
- The list filter never filters for an administrator or an owner, while the point check narrows them to their own prefix
  grants (`Rbac.FilterExact`). Grants are not made out to the recorded owner id (`internal/api/bucket_access_service.go`),
  so this concerns administrators and owners recorded by name only (`Rbac.AdministratorSeesMore`,
  `Rbac.OwnerByNameSeesMore`).
- A call of Active that looked before a session was deleted can return true after it, from the cache or from the
  provider; `OidcSession.ReturnedAfterRevocation` says exactly which calls do.
- A key-rotation job must not report completed while a version it started with is gone (`internal/kms/jobs.go`), and it
  tells by counting. So it does when another version was added in its place (`KmsChanging.GoneUnnoticed`), and only then
  (`KmsChanging.CompletedLosesNothing`); `KmsChanging.EndsExactly` says when a job ends completed.
- The text a peer request signs joins its fields with line breaks, and bucket, key and version are not checked for them;
  it determines the object exactly when the name has none (`ReplicaTheorems.NameBoundExactly`).
- A table of more than 256 nonces is purged of those past their expiry, while a request passes the expiry check for 5 s
  longer; and the table is kept in memory, so a restart empties it. `ReplicaReplay.ReplayExactly` says exactly when a node
  acts on a nonce again, and `ReplicaReplay.ReplayReached` and `ReplicaReplay.RestartReached` are runs in which it does.

Some results are about one function on all its arguments, beyond what the program passes to it:

- The resolver gives write access without read access under a group that grants only writing
  (`Rbac.BucketWriteImpliesRead`), but both stores build group access that reads
  (`internal/metadata/tenant_groups.go`, `internal/metadata/postgres/tenant_groups.go`), and then write implies read
  everywhere and the list filter agrees with the handler's access (`Rbac.WriteImpliesRead`,
  `Rbac.FilterAgreesForReaders`).
- A pending sink with a zero time resets the running minimum of the outbox fold, so the next attempt can depend on map
  order; `Outbox.OrderFreeExactly` says exactly when it does not. Every writer of a pending sink sets a time
  (`internal/api/events_cluster.go`, `internal/api/events_delivery.go`, `internal/api/object_events.go`,
  `internal/events/dispatcher.go`), and for such rows neither order nor repetition matters (`Outbox.TimedRows`).
- `RateLimit.Decide` lets one call through even for a limit below one; the server only builds limiters with a positive
  limit (`internal/api/server.go`).
- Job cursors join key and version with a separator. `KmsJobTheorems.CursorsEqual` says exactly which pairs share a
  cursor, and the job needs that no two listed versions do (`KmsCollision.SkipsNothingExactly`). The store's listings
  meet it (`KmsJobTheorems.StoreListing`): keys with control characters are refused (`internal/storage/keys.go`), and
  version ids are hexadecimal or time stamps (`internal/api/s3/service.go`, `internal/metadata/postgres/objects.go`).

## Model

| member | source | states |
|---|---|---|
| `ChunkedTheorems.RoundTrip` | internal/auth/chunked.go:81-288 | for every payload, empty or containing CRLF, decoding the encoder's output gives the payload and EOF exactly when it fits one chunk and the declared length agrees; otherwise it names the error |
| `ChunkedTheorems.DeliveredIsVerified` | internal/auth/chunked.go:166-240 | for every input stream, the bytes released are the payload of the longest run of chunks whose signatures chain from the seed; the piece after it releases nothing and gives the error |
| `ChunkedTheorems.VerifiedIsDelivered` | internal/auth/chunked.go:166-240 | every chained run of chunks at the front of a stream is released whole, whatever follows |
| `ChunkedTheorems.CleanEof` | internal/auth/chunked.go:204-226 | EOF is reported exactly when a chained zero chunk closes the stream, the trailers agree with the bytes released over all chunks, and the declared length is their number |
| `ChunkedTheorems.ClosingEof` | internal/auth/chunked.go:290-380 | closing succeeds exactly when trailer signature and every recognised checksum agree with the bytes seen, and the length does |
| `ChunkedTheorems.NextIsFrame` | internal/auth/chunked.go:166-240 | a chunk with a matching signature is taken off the wire whole |
| `ChunkedTheorems.FrameOfNext` | internal/auth/chunked.go:166-240 | whatever is taken off the wire was such a chunk |
| `ChunkedTheorems.HeaderParses` | internal/auth/chunked.go:254-288 | a printed chunk header parses back to its size and signature, and only sizes beyond 63 bits fail |
| `ChunkedTheorems.TrailerLinesRead` | internal/auth/chunked.go:290-331 | trailer lines written one per CRLF line are read back as written |
| `ChunkedChain.ChunkSigBinds` | internal/auth/chunked.go:229-240 | two chunk signatures are equal exactly when they cover the same date, scope, previous signature and bytes |
| `ChunkedChain.TrailerSigBinds` | internal/auth/chunked.go:242-252 | two trailer signatures are equal exactly when they cover the same date, scope, previous signature and trailer text |
| `ChunkedChain.TrailerIsNoChunk` | internal/auth/chunked.go:229-252 | no trailer signature is a chunk signature |
| `ChunkedChain.FramesKeepOrder` | internal/auth/chunked.go:166-240 | frames of an honest body dropped, repeated or exchanged at will are delivered up to the first one out of place, which ends in a signature error; all of them in order are delivered whole and end in EOF |
| `ChunkedChain.RequestSeed` | internal/auth/chunked.go:114-164 | the signature of the request, which the chain starts from, is never the signature of a chunk |
| `ChunkedTrailers.PlainBody` | internal/auth/chunked.go:166-288 | unsigned chunks of any sizes are delivered in order and whole, and end in EOF when the declared length agrees |
| `ChunkedTrailers.SignedTrailers` | internal/auth/chunked.go:290-349 | the end of a signed body with trailers: malformed on a broken line end, refused unless the signature covers the lines as written, a bad digest when a line declares one, then the declared length |
| `ChunkedTrailers.PlainTrailers` | internal/auth/chunked.go:290-331 | the same for an unsigned body whose trailers a blank line closes |
| `ChunkedTrailers.ChecksumLine` | internal/auth/chunked.go:351-380 | a checksum line passes exactly when its value decodes to the digest its header names, of the bytes seen |
| `ChunkedTrailers.OtherLine` | internal/auth/chunked.go:351-380 | a line under any other header passes |
| `ChunkedTrailers.ExtendedHeaderParses` | internal/auth/chunked.go:254-288 | the signature of a chunk header ends where the next extension begins |
| `Chunked.HexValueOfFormat` | internal/auth/chunked.go:81-100 | the printed hexadecimal size denotes the size |
| `ChunkReaders.ChunkReader.Read` | internal/auth/chunked.go:166-227 | each read copies out the next bytes of the decoded stream, whatever the buffer size; the error comes once nothing is left and every later read returns it again |
| `ChunkReaders.ChunkReader.ReadHeader` | internal/auth/chunked.go:254-288 | the header line is consumed and parsed as specified, with its error cases |
| `ChunkReaders.ChunkReader.ReadTrailers` | internal/auth/chunked.go:290-331 | the trailer block yields the specified error or none |
| `ChunkReaders.ChunkReader.FinishTrailerBlock` | internal/auth/chunked.go:333-349 | accepts what may follow the trailer lines and nothing else, and consumes a CR with the byte after it |
| `ChunkReaders.ChunkReader.ChecksumOK` | internal/auth/chunked.go:351-380 | true exactly when every recognised trailing checksum is the digest of the bytes read |
| `ChunkReaders.ChunkReader.ExpectCRLF` | internal/auth/chunked.go:391-397 | succeeds exactly on CRLF and consumes it |
| `ChunkReaders.EncodeSignedChunks` | internal/auth/chunked.go:81-100 | writes the payload as one signed chunk followed by the signed zero chunk, each signature chained to the one before |
| `ChunkReaders.ReadThrough` | internal/auth/chunked.go:166-227 | any sequence of reads delivers a prefix of one stream that does not depend on the buffer sizes, and all of it by the first error |
| `ChunkReaders.EncodeThenRead` | internal/auth/chunked.go:81-227 | encoding and reading back through any non-empty buffers returns the payload, then EOF |
| `CanonicalQuery.UnescapeOfEscape` | internal/auth/sigv4.go:335-346 | percent-encoding loses nothing: a decoder restores every byte string |
| `CanonicalQuery.UriEncodeQuery` | internal/auth/sigv4.go:335-346 | the encoding loop computes the encoding the decoder inverts |
| `CanonicalQuery.DecodeCanonical` | internal/auth/sigv4.go:256-274 | the canonical query decodes to the query's sorted pairs |
| `CanonicalQuery.CanonicalInjective` | internal/auth/sigv4.go:256-274 | two queries have the same canonical text exactly when every key has the same multiset of values |
| `CanonicalQuery.CanonicalQueryString` | internal/auth/sigv4.go:256-274 | the result is that canonical text whatever order the map yields its keys in |
| `SigV4Theorems.PresignedVerdict` | internal/auth/sigv4.go:82-204 | a URL from PresignURL is accepted exactly until it expires; refused for the root key, for a lifetime not within 1 s and 7 days, for added x-amz- headers, and for a session token the URL does not carry |
| `SigV4Theorems.SignedIsAccepted` | internal/auth/client.go:14-63 | every request SignRequest signed is accepted by Authenticate when region and service match and the key is known |
| `SigV4Theorems.AuthorizationParses` | internal/auth/sigv4.go:206-217 | the printed Authorization header parses back to credential, signed names and signature |
| `SigV4Theorems.CredentialFields` | internal/auth/sigv4.go:40-80 | the credential splits back into key and scope |
| `SigV4Theorems.SignedNamesField` | internal/auth/client.go:49-63 | the list of signed names survives printing and splitting |
| `SigV4Theorems.NamesCover` | internal/auth/sigv4.go:136-157 | a list with host and every x-amz- header passes the check of required headers |
| `SigV4Theorems.ScanOfFormat` | internal/auth/sigv4.go:82-130 | a printed lifetime is read back as the same number |
| `SigV4Theorems.PresignedBinds` | internal/auth/sigv4.go:235-254 | two presigned requests have the same signed text exactly when verb, path, host and, but for the signature, the values of every query key agree |
| `SigV4Forgery.HeaderVerdict` | internal/auth/sigv4.go:40-80 | any request that carries the Authorization header of a signed one is refused as a mismatch unless secret, region, service, verb, path, host, query values, signed headers, date and payload hash are those that were signed; otherwise unsigned x-amz- headers, then the token, decide |
| `SigV4Forgery.OtherSignature` | internal/auth/sigv4.go:40-80 | a signed request with any other signature in its header is refused as a mismatch |
| `SigV4Forgery.MissingExactly` | internal/auth/sigv4.go:40-50 | credentials are missing exactly when there is neither an Authorization header nor an algorithm in the query |
| `SigV4Forgery.Unreadable` | internal/auth/sigv4.go:40-60 | another scheme, or a credential without five parts, is invalid |
| `SigV4Presigned.PresignedExactly` | internal/auth/sigv4.go:82-134 | any request that names the key, time and lifetime of a URL and bears its signature: after root key, lifetime and expiry it is a mismatch unless verb, path, host, date and query values are the URL's; then added headers and the token decide |
| `SigV4Presigned.AcceptedWasSigned` | internal/auth/sigv4.go:82-134 | whatever is accepted with the signature of a URL is that URL, at the region and service it was made for |
| `SigV4Presigned.OtherSignature` | internal/auth/sigv4.go:82-134 | a URL with any other signature is refused as a mismatch |
| `SigV4Presigned.PresignedBindsAny` | internal/auth/sigv4.go:235-254 | whatever headers a request says are signed, its text is that of a URL exactly when it signs its host alone and has the URL's verb, path, host and query values |
| `SigV4Binding.TextBinds` | internal/auth/sigv4.go:219-288 | two canonical requests over the same signed names are equal exactly when verb, path, query values, the value of each signed header and the payload agree |
| `SigV4Binding.StringBinds` | internal/auth/sigv4.go:290-304 | what is signed determines date, scope and canonical request |
| `SigV4Binding.SlashesStay` | internal/auth/sigv4.go:320-333 | a path is encoded segment by segment |
| `SigV4Binding.PlainPathStays` | internal/auth/sigv4.go:320-333 | a path is left as it is exactly when it has only unreserved characters and slashes |
| `SigV4Signers.HttpRequest.Sign` | internal/auth/client.go:14-45 | afterwards the request carries date, payload hash, host and Authorization headers and is otherwise unchanged |
| `SigV4Signers.SignedHeaderNames` | internal/auth/client.go:49-63 | the sorted, duplicate-free names that are signed, whatever the map order |
| `SigV4Signers.UriEncode` | internal/auth/sigv4.go:320-333 | the loop computes the path encoding |
| `SigV4Signers.BuildCanonicalHeaders` | internal/auth/sigv4.go:276-288 | one line per signed name, the lines sorted |
| `SigV4Signers.BuildCanonical` | internal/auth/sigv4.go:219-254 | the canonical request both signer and verifier hash |
| `SigV4Signers.PresignUrl` | internal/auth/sigv4.go:174-204 | sets the query of a presigned URL, the signature last |
| `SigV4Signers.ParseAuth` | internal/auth/sigv4.go:206-217 | the last of equal keys wins, parts without `=` are dropped |
| `SigV4Signers.RequireSignedHeaders` | internal/auth/sigv4.go:136-157 | true exactly when host and every x-amz- header present are signed |
| `SigV4Signers.AuthenticateRequest` | internal/auth/sigv4.go:40-80 | the verdict on a request, with every refusal |
| `SigV4Signers.VerifyPresignedRequest` | internal/auth/sigv4.go:82-130 | the verdict on a presigned request, with every refusal |
| `SigV4Signers.CheckSigned` | internal/auth/sigv4.go:136-171 | required headers first, then the session token |
| `Rbac.FilterAgrees` | internal/api/bucket_object_access.go:28-89 | a caller with read access who is neither owner nor administrator is shown exactly the objects the point check allows |
| `Rbac.FilterExact` | internal/api/bucket_object_access.go:28-89 | for every caller with read access, list and point check agree exactly unless an owner or administrator holds a prefix grant that misses some object |
| `Rbac.FilterAgreesWithHandler` | internal/api/tenant_groups_handlers.go:130-141 | with read access taken from resolveBucketAccess, agreement fails exactly where team access overrules a refusing group |
| `Rbac.FilterAgreesForReaders` | internal/api/tenant_groups_handlers.go:130-141 | with group access as the stores build it, a caller who may read and is neither owner nor administrator is shown exactly what the point check allows |
| `Rbac.AdministratorSeesMore` | internal/api/bucket_object_access.go:28-47 | an administrator with a prefix grant is listed an object the point check refuses |
| `Rbac.OwnerByNameSeesMore` | internal/api/bucket_object_access.go:28-47 | so is an owner recorded by name only who holds a prefix grant |
| `Rbac.FilterObjectsForPrefixAccess` | internal/api/bucket_object_access.go:77-89 | the loop keeps the readable objects in order, or everything for a caller who is not narrowed |
| `Rbac.BucketWriteImpliesRead` | internal/auth/rbac.go:269-323 | write access without read access arises exactly from a write-only group and no other claim |
| `Rbac.ObjectWriteImpliesRead` | internal/auth/rbac.go:326-339 | the same for every object key |
| `Rbac.WriteImpliesRead` | internal/auth/rbac.go:269-421 | with group access as the stores build it, write access implies read access to every bucket and object key |
| `Rbac.ResolversAgree` | internal/auth/rbac.go:269-421 | on unregulated buckets outside tenants both resolvers agree exactly when group access is absent, matches the team rule, or is overruled by role or ownership |
| `Rbac.FirstGrantDecides` | internal/auth/rbac.go:192-219 | the first grant of the user that carries a level decides |
| `Rbac.FirstPrefixDecides` | internal/auth/rbac.go:231-245 | the first of the user's prefix grants that covers the key decides |
| `Rbac.PrefixNamesFolder` | internal/auth/rbac.go:256-266 | a prefix, with or without outer slashes, covers its folder's name and everything below and nothing else |
| `RbacClaims.RegulatedAccess` | internal/auth/rbac.go:269-323 | into a bucket with grants, prefix grants, groups of its tenant or group access a caller gets exactly by role, ownership, tenant administration, their own first effective grant, for reads a prefix grant of their own, or group access |
| `RbacClaims.UnregulatedAccess` | internal/auth/rbac.go:269-323 | into any other bucket exactly by role, ownership, membership of its tenant, for writes with a writing role, or, without membership, by team |
| `RbacClaims.TenantlessAccess` | internal/api/tenant_groups_handlers.go:130-141 | the handler's access to a bucket without tenant and regulation: by role, ownership or team and nothing else |
| `RbacClaims.OthersGrants` | internal/auth/rbac.go:269-323 | grants made out to others never give access |
| `RbacClaims.ObjectAccess` | internal/auth/rbac.go:326-339 | to an object exactly by bucket access that reaches every key or by the first covering prefix grant |
| `RbacClaims.GrantMeans` | internal/auth/rbac.go:192-204 | what a grant gives: its level if it names one, else its flags |
| `RbacClaims.OwnersSeeAll` | internal/api/bucket_object_access.go:28-47 | administrators and owners, and a caller without an id where the bucket names none, are shown the whole list |
| `OidcSession.YesIsFresh` | internal/auth/oidc_session.go:87-102 | a look that finds yes means the session is registered and was put or confirmed in the last 30 s and not revoked since |
| `OidcExact.LookExactly` | internal/auth/oidc_session.go:87-102 | in every run, a look at a session that a put stands for finds yes exactly before 30 s have passed since it was last put or confirmed, and from then on asks about the token put last |
| `OidcExact.LookFindsNo` | internal/auth/oidc_session.go:87-94 | a look at any other session finds no |
| `OidcExact.RegisteredExactly` | internal/auth/oidc_session.go:50-115 | a session is registered exactly while a put of it stands: none was revoked since |
| `OidcExact.CachedExactly` | internal/auth/oidc_session.go:50-115 | the cache says yes for one lifetime from the last put or confirmation |
| `OidcExact.UncachedByAge` | internal/auth/oidc_session.go:95-102 | in a store of any history, a session the cache does not decide is live below 30 s of age and asked about from then on |
| `OidcSession.ReturnedTrueIsBacked` | internal/auth/oidc_session.go:50-115 | in every run, a call that returns true, cached or provider-answered, looked at a registered session, and a put or confirmation less than 30 s before it read its clock, unrevoked up to the table read, or the provider's answer to this very call, backs it |
| `OidcSession.RevokedStaysRevoked` | internal/auth/oidc_session.go:76-115 | after a delete or an inactive answer every look finds no until the next put, also when a late write-back lands in between |
| `OidcSession.ReturnedAfterRevocation` | internal/auth/oidc_session.go:76-115 | after a revocation that no put follows, a call returns true exactly when it looked before the revocation and found yes, or asked and was told yes |
| `OidcSession.AskedTrueAfterDelete` | internal/auth/oidc_session.go:76-115 | a run in which a call that asked before a delete returns true after it |
| `OidcSession.CachedTrueAfterDelete` | internal/auth/oidc_session.go:76-115 | a run in which a call that read a cached yes before a delete returns true after it |
| `OidcSession.CacheIsBacked` | internal/auth/oidc_session.go:50-115 | in every run a positive cache entry stems from a put or a confirmation one lifetime before it expires, with no revocation since |
| `OidcSession.SessionIsBacked` | internal/auth/oidc_session.go:50-84 | in every run a registered session stems from a put or confirmation not before its creation, with no revocation since |
| `OidcSession.OidcSessionStore.PutSession` | internal/auth/oidc_session.go:50-65 | the new session and cache tables |
| `OidcSession.OidcSessionStore.DeleteSession` | internal/auth/oidc_session.go:76-84 | the session leaves both tables |
| `OidcSession.OidcSessionStore.LookUp` | internal/auth/oidc_session.go:87-102 | what a call finds under the read lock and makes of it: an answer, or a question to the provider |
| `OidcSession.OidcSessionStore.WriteBack` | internal/auth/oidc_session.go:107-113 | the tables after the provider answered |
| `OidcSession.OidcSessionStore.Active` | internal/auth/oidc_session.go:87-115 | look, question and write-back in one, with the provider's error |
| `Ulid.OrderEmbedding` | internal/events/event.go:192-237 | ids sort as strings exactly as their 16 bytes sort |
| `Ulid.EncodeInjective` | internal/events/event.go:208-237 | different ids have different strings |
| `Ulid.DigitsValue` | internal/events/event.go:208-237 | the 26 bit expressions together change the base from 256 to 32 and nothing else |
| `Ulid.IdOrder` | internal/events/event.go:195-237 | ids sort by time, then by random bytes |
| `Ulid.TimeOrder` | internal/events/event.go:195-206 | ids made at t1 sort before all made at t2 exactly when t1 precedes t2 modulo 2^48 ms, so always in range |
| `Ulid.EncodeULID` | internal/events/event.go:208-237 | filling the buffer position by position gives the encoding |
| `Ulid.NewULID` | internal/events/event.go:195-206 | the id of the six big-endian time bytes and the random bytes |
| `Ulid.AlphabetIs` | internal/events/event.go:192-194 | the symbols are the digits and the capital letters but I, L, O and U |
| `Outbox.AggregateMeans` | internal/events/event.go:138-190 | pending iff some sink is neither delivered nor dead, dead iff none is pending and some is dead; terminal times are written once; dropped rows never change |
| `Outbox.NextAttemptIsEarliest` | internal/events/event.go:155-176 | with non-zero times the next attempt is the earliest over pending sinks |
| `Outbox.OrderFreeExactly` | internal/events/event.go:155-176 | the outcome is independent of map order exactly for the rows described by a condition on their times |
| `Outbox.IdempotentExactly` | internal/events/event.go:141-190 | a second call at the same time changes nothing, in whatever orders the calls range, exactly for the order-free rows |
| `Outbox.SameOrderTwice` | internal/events/event.go:141-190 | a second call that ranges in the same order changes nothing, for every row |
| `Outbox.TimedRows` | internal/events/event.go:141-190 | with a time on every pending sink, neither the order nor a second call makes a difference |
| `Outbox.OutboxRecord.AggregateStatus` | internal/events/event.go:141-190 | the record in place becomes the fold over its sinks in the order taken |
| `ListingTheorems.WholeListing` | internal/api/bucket_handlers.go:15-92 | following markers from the start shows every folder and file exactly once, each sorted, in ceil(n/maxKeys) pages, one when empty |
| `ListingTheorems.PagesInOrder` | internal/api/bucket_handlers.go:45-92 | every folder or file of a page comes before every folder or file of any later page |
| `ListingTheorems.EveryObjectListed` | internal/api/bucket_handlers.go:15-40 | every object below the prefix is a listed file or inside exactly one listed folder, and nothing else is listed |
| `ListingTheorems.MarkerMoves` | internal/api/bucket_handlers.go:45-92 | the marker of a truncated page resumes right after what the page showed |
| `ListingExact.PageExactly` | internal/api/bucket_handlers.go:15-92 | from any marker a page shows exactly the first folders and files after it, each in order and once, as many as asked for or 100, and says whether and where it was cut short |
| `Listing.SplitFolderListing` | internal/api/bucket_handlers.go:15-40 | the folders and files of one level, without repeats |
| `Listing.PaginateDelimitedListing` | internal/api/bucket_handlers.go:45-92 | one page of the merged, sorted entries, whatever the map order |
| `Listing.FindStart` | internal/api/bucket_handlers.go:45-92 | the scan stops at the first key after the marker |
| `KmsJobTheorems.CountersAgree` | internal/api/kms_job_runner.go:94-167 | after any run with crashes and lost saves, saved progress counts the live versions up to the saved cursor, never exceeds the total, and equals it when the job is over |
| `KmsJobTheorems.NothingSkipped` | internal/api/kms_job_runner.go:94-167 | every version up to the saved cursor has an application that was saved |
| `KmsJobTheorems.RepeatMeansLost` | internal/api/kms_job_runner.go:94-167 | a version is applied again only after its earlier save was lost |
| `KmsJobTheorems.CursorNeverBack` | internal/api/kms_job_runner.go:94-167 | the saved cursor never moves back over a run, whatever the listing |
| `KmsJobTheorems.Finishes` | internal/api/kms_job_runner.go:71-167 | undisturbed, ceil(n/32)+1 steps end the job with everything done, and no fewer do |
| `KmsChanging.EndsExactly` | internal/kms/jobs.go:27-38 | with versions coming and going, a job ends exactly at the saved step that finds nothing after the cursor; completed exactly when no kept application failed and neither versions nor work fall short of the count taken at the start |
| `KmsChanging.EndStep` | internal/kms/jobs.go:20-38 | the errors of a job that ends go up by what is missing |
| `KmsChanging.DriveCounts` | internal/api/kms_job_runner.go:94-167 | whatever is listed, done and errors count the kept applications, and completed means no errors |
| `KmsChanging.CountOfSome` | internal/api/kms_job_runner.go:94-167 | the count a job is measured against is that of one of its listings |
| `KmsChanging.HandedBack` | internal/api/kms_job_runner.go:94-167 | a job given up before the first item is marked running with its count, and nothing else changes |
| `KmsChanging.CompletedLosesNothing` | internal/kms/jobs.go:27-38 | a completed job has every counted version still listed, unless one was added in place of what is gone |
| `KmsChanging.GoneUnnoticed` | internal/kms/jobs.go:27-38 | a completed run in which a version is gone that was never applied |
| `KmsJobTheorems.StepKeeps` | internal/api/kms_job_runner.go:94-167 | one step keeps the invariant of cursor, counters and log, whatever interrupts it |
| `KmsJobTheorems.StepSmooth` | internal/api/kms_job_runner.go:94-167 | an undisturbed step advances by a whole batch or finishes |
| `KmsJobTheorems.BatchIsNext` | internal/kms/jobs.go:66-71 | a batch is the next stretch of the sorted versions after the cursor |
| `KmsJobTheorems.SortedAscending` | internal/api/kms_job_runner.go:94-167 | sorted versions have strictly ascending cursors and lose nothing |
| `KmsJobTheorems.CursorsEqual` | internal/kms/jobs.go:61-63 | two versions share a cursor exactly when they are the same, or one key runs on into the other's version id up to a separator in there |
| `KmsJobTheorems.CursorInjective` | internal/kms/jobs.go:61-63 | cursors tell versions apart as soon as the keys, or the version ids, contain no separator |
| `KmsJobTheorems.StoreListing` | internal/storage/keys.go:16-38 | listings of accepted keys, each version once, have distinct cursors |
| `KmsCollision.SkipsNothingExactly` | internal/api/kms_job_runner.go:94-167 | no version at or below the saved cursor is skipped in any run exactly when the listed cursors are distinct |
| `KmsCollision.CollisionSkips` | internal/api/kms_job_runner.go:94-167 | if two listed versions share a cursor, some run of crashes passes over one of them, and no continuation of that run ever applies it |
| `KmsJob.Runner.StepOneKMSJob` | internal/api/kms_job_runner.go:94-167 | the job row and the log after one step under any fate of each save |
| `KmsJob.Runner.WorkThrough` | internal/api/kms_job_runner.go:94-167 | the job row and the log after the loop over one batch, stopped by lost leadership, a crash or a failed save |
| `KmsJob.TakeBatch` | internal/api/kms_job_runner.go:94-167 | the first items after the cursor, at most a batch |
| `KmsJob.CountLive` | internal/api/kms_job_runner.go:94-167 | the number of versions that are not delete markers |
| `RateLimit.RateBound` | internal/api/ratelimit.go:30-48 | in every run at most twice the limit less one passes in any interval of one window length, and at most the limit in the current window |
| `RateLimit.WindowBound` | internal/api/ratelimit.go:30-48 | at most the limit passes in every counting window opened anywhere in a run |
| `RateLimit.BoundReached` | internal/api/ratelimit.go:30-48 | for every limit some run reaches that bound |
| `RateLimit.WaitSuffices` | internal/api/ratelimit.go:30-48 | after a denial an address is denied until the announced wait has passed and allowed right after |
| `RateLimitExact.AllowedExactly` | internal/api/ratelimit.go:30-48 | in every run a call is allowed exactly if it opens a window or is among the first `limit` calls of its window, and a denied one is told to wait for the window's end |
| `RateLimit.Independent` | internal/api/ratelimit.go:30-48 | an address is treated as if it were alone |
| `RateLimit.IpRateLimiter.Allow` | internal/api/ratelimit.go:30-48 | verdict, wait and new table of one call |
| `GatewayTheorems.Conservation` | internal/api/gateway_worker.go:148-205 | over the bolt store, in every state of every run of whole batches, retries and clears, counters equal what the task table says, failed tasks used exactly the allowed attempts, others fewer, and executions stay within the budget |
| `GatewayTheorems.CounterIsFailed` | internal/api/gateway_worker.go:148-205 | the error counter is the number of failed tasks exactly when none was put back since the last clear |
| `GatewayTheorems.RecordsAreFailed` | internal/api/gateway_worker.go:148-205 | the error records number the failed tasks exactly when none was put back and at most 50 failed, or exactly 50 failed |
| `GatewayTheorems.MoreFailuresThanRecords` | internal/metadata/replication.go:218-243 | a run with 51 failed tasks and 50 records |
| `GatewayTheorems.CounterAfterRetry` | internal/metadata/replication.go:308-338 | a run with an error count of 1 and no failed task |
| `GatewayPhases.Drift` | internal/metadata/replication.go:189-306 | with clears, retries and new tasks between any two transactions of the worker, the reading and the writing of the statistics included, completed tasks, bytes, attempts and executions still agree, and the error counter and the records are off by exactly what the last clear left uncounted or the write restored |
| `GatewayPhases.CounterIsFailedExactly` | internal/metadata/replication.go:189-306 | then the counter is the number of failed tasks exactly when what was put back and restored since the last clear is what it left uncounted |
| `GatewayPhases.RestoredReached` | internal/metadata/replication.go:189-202 | for every n, a run with an error count of n, no failed task, no record and nothing put back |
| `GatewayPhases.UncountedReached` | internal/api/gateway_worker.go:160-204 | a run with a failed task, a record and an error count of zero |
| `GatewayPostgres.PgConservation` | internal/metadata/postgres/replication.go:149-217 | over Postgres, with clears, retries and new tasks between any two transactions of the worker, the error counter is the number of failed tasks and of all ever put back, the records are the errors recorded since the last clear, and attempts and executions exceed the allowed ones by at most the retries |
| `GatewayPostgres.MoreThanAllowed` | internal/metadata/postgres/replication.go:209-217 | a run over Postgres in which a failed task has used more than the allowed attempts |
| `GatewayPhases.PhasesAreOne` | internal/api/gateway_worker.go:160-204 | without anything in between the transactions are one pass of the loop |
| `GatewayPhases.PendingUntouched` | internal/metadata/replication.go:268-338 | clears, retries and new tasks leave what the worker listed as it is |
| `GatewayTheorems.RetryTime` | internal/api/gateway_worker.go:184-188 | a retry is due min(2^attempts, 60) s after its batch began, whatever else the batch did |
| `GatewayOutcomes.BatchOutcome` | internal/api/gateway_worker.go:148-205 | every listed task is completed with its bytes, given up, or due again, by what its execution returned, and no other task changes; counters go up by bytes, completions and tasks given up, and new records are theirs |
| `GatewayOutcomes.IssuedIsDue` | internal/metadata/replication.go:308-338 | a task that is enqueued or put back is due from that moment |
| `GatewayTheorems.BackoffShape` | internal/api/gateway_worker.go:184-188 | the backoff doubles up to the fifth attempt and is a minute from the sixth |
| `GatewayTheorems.ProcessOneKeeps` | internal/api/gateway_worker.go:160-204 | one execution keeps the balance of counters, tasks and budget |
| `GatewayTheorems.ReissueKeeps` | internal/metadata/replication.go:308-338 | so does re-issuing failed tasks |
| `GatewayTheorems.ClearKeeps` | internal/metadata/replication.go:268-306 | so does clearing errors |
| `GatewayTheorems.EnqueueKeeps` | internal/api/gateway_worker.go:53-66 | so does a fresh task |
| `GatewayTheorems.LatestStay` | internal/metadata/replication.go:218-243 | a new error record is kept with the others of greatest key, at most 50 in all, and whatever goes has a smaller key than all that stay |
| `GatewayQueue.Gateway.AddReplicationError` | internal/metadata/replication.go:218-243 | the record table after one more error, whatever order the store yields its keys in |
| `GatewayQueue.Gateway.ProcessQueueOnce` | internal/api/gateway_worker.go:148-205 | the queue after a batch |
| `GatewayQueue.Gateway.ProcessTask` | internal/api/gateway_worker.go:160-204 | the queue after one task of it |
| `ReplicaTheorems.EveryFileAccounted` | internal/api/ha_object_replica.go:144-250 | after any run on any number of nodes, with metadata changing at will, bytes on a disk were written by the rest of the program or fitted the metadata row when a push or pull installed them |
| `ReplicaTheorems.EverySendFits` | internal/api/ha_object_replica.go:268-307 | in any run a 200 carries a file the node holds that fits the row of that moment |
| `ReplicaTheorems.FetchVerdict` | internal/api/ha_object_replica.go:456-531 | a fetch succeeds exactly when some peer yields fitting bytes; it installs those of the first such peer, and a failed fetch changes nothing |
| `ReplicaTheorems.PutVerdict` | internal/api/ha_object_replica.go:163-250 | a push is confirmed exactly when it is authentic, fresh and fits its row and the disk works; otherwise no file changes |
| `ReplicaAuth.PushExactly` | internal/api/ha_object_replica.go:50-250 | a push that bears the code of a signed request is confirmed exactly when verb, body, expiry, nonce, destination and name are those signed, it is in time and new, and its body fits and is stored; otherwise no file changes |
| `ReplicaAuth.ReadExactly` | internal/api/ha_object_replica.go:50-307 | a read that bears such a code is answered with bytes exactly when it is the signed one, in time and new, and fitting bytes are held |
| `ReplicaAuth.AlteredIsRefused` | internal/api/ha_object_replica.go:50-207 | a request that bears the code of another is refused and leaves files and nonces alone |
| `ReplicaAuth.ForgedIsRefused` | internal/api/ha_object_replica.go:59-76 | so is one that bears any other code |
| `ReplicaAuth.TakenBack` | internal/api/ha_object_replica.go:229-250 | a push the backend hashed otherwise is refused, and removed if it can be |
| `ReplicaAuth.FitsMeans` | internal/api/ha_object_replica.go:136-152 | bytes fit a row exactly when they have its digest, quoted or not and in any letter case, and, unless it is sealed, its length |
| `ReplicaAuth.NoEtagFitsNothing` | internal/api/ha_object_replica.go:136-142 | a row without an ETag fits nothing |
| `ReplicaAuth.AllMissing` | internal/api/ha_object_replica.go:456-531 | when every peer answers 404 the caller is told the object is nowhere |
| `ReplicaTheorems.PushReplicates` | internal/api/ha_object_replica.go:123-250 | a signed push of fitting bytes to a healthy peer ends with those bytes on its disk |
| `ReplicaTheorems.FetchFromHolder` | internal/api/ha_object_replica.go:123-531 | pulling from a peer that holds fitting bytes brings those bytes here |
| `ReplicaTheorems.CanonBinds` | internal/api/ha_object_replica.go:50-57 | a signed text made of one-line fields is made by no other fields at all: it determines verb, body hash, expiry, nonce, destination and object |
| `ReplicaTheorems.NameBoundExactly` | internal/api/ha_object_replica.go:50-57 | with one-line headers the signed text determines the object name exactly when the name is one-line |
| `ReplicaTheorems.SharedText` | internal/api/ha_object_replica.go:50-57 | two names with line breaks that share a signed text |
| `ReplicaTheorems.SignedInTime` | internal/api/ha_object_replica.go:78-124 | a signed request is in time exactly from 10 s before to 25 s after the whole second it was signed in |
| `ReplicaTheorems.SignedPasses` | internal/api/ha_object_replica.go:65-210 | a signed request for this node passes every check before the nonce exactly while it is in time |
| `ReplicaReplay.ReplayBound` | internal/api/ha_object_replica.go:78-211 | in any run of the cluster, restarts included, a node acts twice on one nonce only after a restart, or past the expiry of the first request and after a purge, past that expiry, of a table with more than 256 entries; on the same expiry only within the 5 s grace |
| `ReplicaReplay.ReplayExactly` | internal/api/ha_object_replica.go:94-211 | a request with a nonce its node acted on before, and not since, is acted on exactly when it passes the checks before the nonce and a restart or such a purge came in between, or the purge comes with it |
| `ReplicaReplay.PresentUntilForgotten` | internal/api/ha_object_replica.go:94-121 | meanwhile the nonce is in the table, with its expiry, exactly until a restart or such a purge |
| `ReplicaReplay.ReplayReached` | internal/api/ha_object_replica.go:78-211 | a run of 257 signed requests that arrive at their expiry and of the first one again a second later, which the node acts on both times |
| `ReplicaReplay.RestartReached` | internal/api/ha_object_replica.go:94-121 | a run in which a node acts on a request, restarts, and acts on it again in the same second |
| `ReplicaReplay.Remembered` | internal/api/ha_object_replica.go:94-121 | from the step that acts on it a nonce stays in the node's table until a restart or a purge past its expiry, whatever else the node acts on |
| `ReplicaTheorems.HonestEtag` | internal/storage/fs.go:109-111 | the ETag of the file backend equals the digest in the replica's comparison |
| `Replica.Server.HandleObjectReplica` | internal/api/ha_object_replica.go:163-250 | disk, nonce table and response for every request and every failure |
| `Replica.Server.ServeObjectReplica` | internal/api/ha_object_replica.go:268-307 | the response for every state of the file |
| `Replica.Server.PullObjectReplica` | internal/api/ha_object_replica.go:472-531 | disk and error after one peer |
| `Replica.Server.PullFromPeers` | internal/api/ha_object_replica.go:456-470 | peers in turn up to the first success; the last error otherwise |
| `Replica.Server.ReplicaMacOK` | internal/api/ha_object_replica.go:65-76 | equal decoded codes, and never with an empty secret or code |
| `ReplicaNonces.AdmittedOnce` | internal/api/ha_object_replica.go:94-116 | with a running clock, a second admission of a nonce comes only after the expiry recorded by the first, however often the table is purged |
| `ReplicaNonces.RefusedWasSeen` | internal/api/ha_object_replica.go:94-116 | a non-empty nonce is refused only if it was admitted before |
| `ReplicaNonces.AdmittedOnceBeforePurge` | internal/api/ha_object_replica.go:94-116 | during the first 257 calls a nonce is admitted only once, whatever its expiry |
| `ReplicaNonces.AgainAfterExpiry` | internal/api/ha_object_replica.go:94-116 | both bounds are met: the 258th call, one second after the expiry, can admit a nonce again |
| `ReplicaNonces.EntryStays` | internal/api/ha_object_replica.go:94-116 | an admitted nonce stays in the table up to its recorded expiry |
| `ReplicaNonces.Table.Accept` | internal/api/ha_object_replica.go:94-116 | verdict and table of one call; the purge loop drops exactly the expired entries |
| `Strings.SplitOfJoin` | internal/auth/sigv4.go:206-217 | splitting at the separator undoes joining, the ground of every print-and-parse result |
| `Strings.SortCanonical` | internal/auth/sigv4.go:256-274 | sorting forgets the input order and nothing else, the ground of independence from map order |

## Left out

- `UnwrapAWSChunked`, the choice of streaming mode and the seed taken from the request headers: set-up around the reader.
- Checksum algorithms, HMAC, SHA-256, MD5, base64 and calendar formatting are function parameters; nothing is proved about them.
- Case folding and trimming of header text cover ASCII only; Go's Unicode cases do not occur in HTTP header names.
- URL printing and parsing by net/url, and the escaping of the request path, are taken as given; headers are keyed by lower-case name.
- `canonicalQuery` sorts each value slice in place; the model works on values, so the effect on a shared slice is not captured.
- `fmt.Sscanf` is modelled with leading blanks of spaces and tabs only.
- ChunkReaders.ChunkReader.Read: the byte counter is unbounded, because streams beyond 2^63 bytes do not occur.
- ChunkedChain.FramesKeepOrder: signatures and digests that never collide, and one-line date, scope and seed, as the headers hold them.
- SigV4Forgery.HeaderVerdict: signatures and digests that never collide; the signed request has header names without colons and one-line texts, as HTTP can send them. The received one may be anything.
- SigV4Presigned.PresignedExactly: the same, and signing times with four-digit years.
- ReplicaAuth.PushExactly: codes that never collide; the signed request has one-line fields, the received one any. Local backends answer with the MD5 of what they stored; `ReplicaAuth.TakenBack` has the rest.
- SigV4Theorems.PresignedVerdict: keys without slashes, and signing times with four-digit years, which the credential and the time layout can hold; with an added x-amz-date header the refusal is one of two.
- OidcSession.ReturnedTrueIsBacked: assumes creation times not in the future, as the callers of Put give them.
- OidcSession.OidcSessionStore.Active: runs without another call in between; interleavings are covered by the run lemmas, where look and write-back are separate events.
- KMS jobs: sampling of errors, timestamps, the choice of work per version and the rewriting of object bytes; one runner writes at a time, and versions are fixed during a run but in `KmsChanging`.
- GatewayTheorems.Conservation: the bolt store, `GatewayPostgres.PgConservation` has the other; a batch is one step, `GatewayPhases.Drift` has what falls inside one; saves succeed, the retry limit is constant, the due list holds pending tasks, as the listing guarantees, and error records get keys of their own, as their random ids make them.
- GatewayPostgres.PgConservation: the keys of error records sort as their creation times; of equal times any may go first.
- Gateway network execution, schedules, full scans and site replication: the outcome of each execution is a parameter.
- `NormalizeOutbox` and the event dispatcher: filling defaults and calling sinks.
- Loading of grants, groups and memberships from the store: they are inputs of the resolvers.
- ReplicaTheorems.FetchVerdict: local backends answer with the MD5 of what they stored, as `internal/storage/fs.go` does; a failed write leaves the old file, by its rename.
- Peer discovery, address handling and the pushing loop over peers: each push is a request in the run.
- HTTP routing, JSON handlers, consoles, activity log, metrics, federation, erasure coding, LDAP, WebAuthn, inventories and the other services of the repository: plumbing, or easier copies of what is modelled.
