# Verified model of the tokenised-asset data room

A Dafny model of the parts of the repository whose correctness rests on more than one function, with
proofs of what they promise together. `dafny verify dfyconfig.toml` checks everything.

* **Secret sharing** (`GF256`, `GF256Inverse`, `Polynomials`, `Lagrange`, `Shamir`, `ShamirTheorems`):
  the bit loops are arithmetic in GF(2)[x] modulo 0x11B; splitting and recovering invert each other for
  every draw, threshold and choice of shares; fewer shares than the threshold say nothing. Random
  coefficients are an input, so the theorems hold for every draw.
* **Event indexer** (`Tables`, `Events`, `Cells`, `Replay`, `Contents`, `CutShort`, `Runs`, `Log`, `Accounting`,
  `Database`, `Handlers`, `Dispatch`, `Membership`, `IndexerLoop`, `Latest`): handlers are not transactions, so
  a crash can fall between any two writes, and the page is then replayed. A run is a list of executed writes,
  each the successor of the one before or the first write of an earlier event. Absorption says where every run
  ends, and `Contents`, `Latest`, `Accounting` and `Membership` what is there. Well-formed logs create objects
  before using them, and announce each version once.
* **Chunked transfer** (`Retry`, `Blobs`, `Chunks`, `TransferProgress`, `ChunkedUpload`, `ChunkedDownload`,
  `Walrus`): the network is an oracle that answers every attempt of every operation at every
  endpoint; the chunks of a batch settle in any order.
* **Rate limiter** (`RateLimit`): the trimmed, expiring sorted set against the full history.
* **Refresh tokens** (`Sessions`, `Auth`): rotation, reuse detection, the paged scan, deadlines, and whom a
  session belongs to.
* **CSV export** (`Csv`): the writer against a reader for section 2 of RFC 4180 with LF as record break; the
  reader also takes CR and other control characters in plain fields, which that section excludes.

## Where the code does not do what it promises

The code is modelled as it is. Where a promise fails, the exact condition is proved.

* The first version row is written only if the document insert returned a row
  (`apps/indexer/src/event-handlers/handlers.ts:213`). A crash between the two inserts loses it for good:
  `Runs.VersionsExactly` gives the condition, `Runs.CutOffLosesTheRow` a run for every log with a document.
* `versionCount` is incremented on every dispatch (`packages/db/src/repositories/documents.repository.ts:51`),
  so replays make it too large: by the amount in `Runs.Absorption`, and in some run for every version added
  to a document (`Runs.RepetitionInflates`).
* The loop gets to the head of a log iff each dataroom event comes after its pool event, or after another
  event for the same dataroom (`IndexerLoop.Indexer.Run`, `Dispatch.AcceptedLogIff`). The contract emits the
  dataroom first (`contracts/rwa_dataroom/sources/pool.move:84-87`); the handler then inserts a dataroom for
  the placeholder pool, which the foreign key rejects, and the cursor never moves (`Dispatch.ContractOrderStops`).
* At the head of a log every run has a row for an added member iff a dataroom event with the id that the member
  event carries comes before it; one that comes only later helps if a replay happens to repeat the member event
  (`Membership.MemberInRunsIff`; well-formed logs exclude that case, `Membership.MemberRowAtTheHead`). The
  contract puts the id of the pool into the events for added and removed members
  (`contracts/rwa_dataroom/sources/dataroom.move:98`, 195, 213 and 235), for which there is no dataroom event
  (`Membership.DroppedMembers`, `Membership.DroppedAudit`).
* The retry helper documents that 503 and other 5xx answers are retried
  (`packages/walrus-sdk/src/retry.ts:16-19` and 34-40); the code retries everything but 400, 401, 402, 404 and
  413. `Retry.DocumentedAttemptsIff` says when this makes no difference, and 429 is one for which it does.
* `updateSession` reads the remaining time in whole seconds and sets it again. The deadline is safe from this
  iff the store rounds down (`Sessions.DeadlineKeptIff`); otherwise it can be postponed for good
  (`Sessions.NeverExpires`). A refresh in the last moments, which every session has (`Auth.EverySessionCloses`),
  hands out a token that is not accepted, while the old one stays valid (`Auth.AuthService.Refresh`,
  `Auth.RotationTakesEffectIff`).
* A refresh signs the new access token with role 0 (`apps/api/src/modules/auth/auth.service.ts:197` and 231), the
  login with the role of the user (78): the claims are kept iff that role was 0 (`Auth.ClaimsKeptIff`).
* A field with a line feed but neither comma nor quote is exported without quotes (`Csv.RoundTripIff`).
* A pipeline whose results do not come back lets the request pass. The limit then holds in every window iff all
  pipelines are executed and only the first `limit` of them lose their reply, or there are no more than `limit`
  at all (`RateLimit.LimitKeptIff`). Otherwise, unless the window is empty, a burst breaks it
  (`RateLimit.BurstExceeds`), and no run does so by more than the number of unanswered requests
  (`RateLimit.WindowBound`).

## Assumptions

* Share indices are natural numbers; in JavaScript the bit operators restrict them to less than 2^31.
* Rows are identified by the on-chain object id that their internal id stands for. Of several datarooms of
  a pool, the lookup with LIMIT 1 is taken to return the one inserted first.
* The organisation with the placeholder id that new pools refer to
  (`apps/indexer/src/event-handlers/handlers.ts:34`, `packages/db/src/schema/pools.ts:20-22`) exists. Nothing in
  the repository creates it, and without it every pool event would throw.
* Saving the cursor is atomic: a call that throws has not saved. If a save could commit and still throw, the
  next page would be a replay, and a crash during it would make the run skip forward. `CutShort.CutShortIff`
  says exactly when the tables, apart from version rows and `versionCount`, have recovered from that at a later
  point of an undisturbed run.
* Pages are contiguous, start behind the cursor, and their cursor is that of their last event. Every call to
  the database may throw, according to a script; being killed is one of the errors, after which only a new
  start goes on. A failing read counts as a failure of the first write, since reads come before all writes.
* The statements on tables are about runs in which no duplicate-key error is swallowed, which holds when the
  script has none. All inserts resolve their own conflicts; a swallowed error leaves its handler half done.
* All tasks of a batch settle before the transfer returns. Percentages are rounded from the exact quotient.
* Rate-limiter pipelines and auth calls are atomic, the limiter's members are distinct, its clock does not
  run backwards, a key has one limit and window, and both clocks agree. Refresh tokens and session ids are
  fresh, the token hash is injective, and a scan lists every key that lives while it runs. A key is readable
  up to and including its expiry.

## Model

| member | source | states |
|---|---|---|
| GF256.GfMul | packages/encryption-sdk/src/keys/recovery.ts:15-26 | the shift-and-reduce loop returns the field product, for a multiplier of any bit length |
| GF256.MulDivides | packages/encryption-sdk/src/keys/recovery.ts:15-26 | the carry-less product is a multiple of 0x11B plus that field product |
| GF256.MulIsRemainder | packages/encryption-sdk/src/keys/recovery.ts:12-26 | a value is the remainder of the carry-less product modulo 0x11B iff it is the field product (section 4.2 of FIPS 197) |
| GF256.GfInv | packages/encryption-sdk/src/keys/recovery.ts:29-41 | throws on zero; otherwise the square-and-multiply loop returns the 254th power |
| GF256.PowSquare | packages/encryption-sdk/src/keys/recovery.ts:35-39 | one round of the loop, for any exponent |
| GF256.PowAdd | packages/encryption-sdk/src/keys/recovery.ts:31 | powers add |
| GF256.MulComm | packages/encryption-sdk/src/keys/recovery.ts:15-26 | multiplication commutes |
| GF256.MulAssoc | packages/encryption-sdk/src/keys/recovery.ts:15-26 | multiplication associates, for a last factor of any bit length |
| GF256.MulXorLeft | packages/encryption-sdk/src/keys/recovery.ts:15-26 | multiplication distributes over XOR on the left |
| GF256.MulXorRight | packages/encryption-sdk/src/keys/recovery.ts:15-26 | and on the right, for multipliers of any bit length |
| GF256Inverse.Fermat | packages/encryption-sdk/src/keys/recovery.ts:31 | raising to the power 256, n times over, gives the byte back |
| GF256Inverse.InvCorrect | packages/encryption-sdk/src/keys/recovery.ts:31-40 | the 254th power is the inverse of every non-zero byte, on both sides |
| GF256Inverse.NoZeroDivisors | packages/encryption-sdk/src/keys/recovery.ts:15-26 | a product is zero only if a factor is |
| Polynomials.ManyRoots | packages/encryption-sdk/src/keys/recovery.ts:113-137 | a polynomial with as many distinct roots as coefficients is zero |
| Polynomials.InterpolationUnique | packages/encryption-sdk/src/keys/recovery.ts:113-137 | two polynomials of the same length that agree on that many distinct points are equal |
| Polynomials.InterpolationAgrees | packages/encryption-sdk/src/keys/recovery.ts:113-137 | a polynomial shorter than the number of points is determined everywhere |
| Lagrange.BasisAtOwnPoint | packages/encryption-sdk/src/keys/recovery.ts:122-130 | the denominator loop evaluates the basis polynomial at its own point |
| Lagrange.BasisAtOtherPoint | packages/encryption-sdk/src/keys/recovery.ts:122-130 | the basis polynomial vanishes at every other point |
| Lagrange.BasisAtZero | packages/encryption-sdk/src/keys/recovery.ts:122-130 | the numerator loop evaluates the basis polynomial at 0 |
| Lagrange.DenominatorZero | packages/encryption-sdk/src/keys/recovery.ts:129-132 | a denominator is zero iff two shares have the same point |
| Lagrange.InterpolantAtPoint | packages/encryption-sdk/src/keys/recovery.ts:113-137 | the interpolating polynomial passes through every share |
| Lagrange.InterpolatedIsValueAtZero | packages/encryption-sdk/src/keys/recovery.ts:113-137 | the loop returns the value at 0 of any polynomial of at most that length through the shares |
| Lagrange.WeightsOfPowers | packages/encryption-sdk/src/keys/recovery.ts:122-133 | the weights sum up the m-th powers of the points to 1 for m = 0 and to 0 for 1 <= m < k |
| Lagrange.InterpolatedLinear | packages/encryption-sdk/src/keys/recovery.ts:133 | recovery is XOR-linear in the share data |
| Shamir.Evaluate | packages/encryption-sdk/src/keys/recovery.ts:83-86 | the Horner loop evaluates the polynomial, constant coefficient first |
| Shamir.AllocateShares | packages/encryption-sdk/src/keys/recovery.ts:68-71 | indices 1..n, with zeroed buffers of the length of the secret |
| Shamir.FillByte | packages/encryption-sdk/src/keys/recovery.ts:80-88 | writes one byte of every share in place and leaves the others alone |
| Shamir.SplitSecret | packages/encryption-sdk/src/keys/recovery.ts:58-92 | succeeds iff 2 <= threshold <= n <= 255 and the secret is not empty, and otherwise gives the first of the four errors in source order; share i+1 holds the values of the drawn polynomials at i+1, the constants being the secret |
| Shamir.BasisValue | packages/encryption-sdk/src/keys/recovery.ts:121-132 | one weight, or the error of inverting zero |
| Shamir.RecoverByte | packages/encryption-sdk/src/keys/recovery.ts:115-134 | the byte at 0; throws iff two share points coincide |
| Shamir.CheckLengths | packages/encryption-sdk/src/keys/recovery.ts:104-109 | true iff all shares have the length of the first |
| Shamir.RecoverPosition | packages/encryption-sdk/src/keys/recovery.ts:114-136 | one position of the secret, over the current contents of the shares |
| Shamir.RecoverSecret | packages/encryption-sdk/src/keys/recovery.ts:101-140 | fewer than two shares, unequal lengths and coinciding points throw; otherwise every byte is the interpolated one |
| ShamirTheorems.SplitThenRecover | packages/encryption-sdk/src/keys/recovery.ts:58-140 | for every secret, 2 <= threshold <= n <= 255, every draw and every list of at least threshold distinct shares in any order, recovery returns the secret |
| ShamirTheorems.CoefficientsExist | packages/encryption-sdk/src/keys/recovery.ts:74-89 | any threshold-1 shares of a byte are explained by every candidate byte |
| ShamirTheorems.CoefficientsUnique | packages/encryption-sdk/src/keys/recovery.ts:74-89 | by one coefficient vector only |
| ShamirTheorems.ThresholdExactness | packages/encryption-sdk/src/keys/recovery.ts:74-89 | threshold-1 shares of a real split are explained by every other secret of the same length, each by exactly one draw |
| ShamirTheorems.RecoverIgnoresOrder | packages/encryption-sdk/src/keys/recovery.ts:113-137 | reordering the shares changes neither the result nor the error |
| Database.Connection.InsertPool | packages/db/src/repositories/pools.repository.ts:41-44 | inserts if absent |
| Database.Connection.UpdatePoolState | packages/db/src/repositories/pools.repository.ts:46-55 | overwrites state and transaction of an existing row |
| Database.Connection.InsertDataroom | packages/db/src/repositories/datarooms.repository.ts:32-35 | inserts if absent; a new row without its pool throws |
| Database.Connection.UpsertMember | packages/db/src/repositories/members.repository.ts:31-46 | inserts, or overwrites role, active and addedBy but not the pool |
| Database.Connection.DeactivateMember | packages/db/src/repositories/members.repository.ts:48-55 | clears active on an existing row |
| Database.Connection.UpdateMemberRole | packages/db/src/repositories/members.repository.ts:57-64 | sets the role of an existing row |
| Database.Connection.InsertDocument | packages/db/src/repositories/documents.repository.ts:41-44 | inserts if absent and reports whether a row came back |
| Database.Connection.UpdateVersionInfo | packages/db/src/repositories/documents.repository.ts:46-55 | sets currentVersion and adds one to versionCount on every call |
| Database.Connection.InsertVersion | packages/db/src/repositories/document-versions.repository.ts:31-38 | inserts if absent, by (document, version) |
| Database.Connection.UpsertReview | packages/db/src/repositories/document-reviews.repository.ts:30-43 | overwrites the status by (document, reviewer) |
| Database.Connection.InsertDecision | packages/db/src/repositories/ic-decisions.repository.ts:28-35 | inserts if absent, by (pool, index) |
| Database.Connection.InsertAudit | packages/db/src/repositories/audit-events.repository.ts:43-50 | inserts if absent, by (transaction, sequence number) |
| Database.Connection.SaveCheckpoint | packages/db/src/repositories/indexer-checkpoints.repository.ts:16-30 | overwrites the checkpoint row, unless the call throws |
| Handlers.HandlePoolCreated | apps/indexer/src/event-handlers/handlers.ts:20-53 | performs a prefix of its writes: all of them unless a call throws; pool row, then audit row without a pool |
| Handlers.HandlePoolStateChanged | apps/indexer/src/event-handlers/handlers.ts:55-76 | performs a prefix of its writes: all of them unless a call throws; state, then audit row |
| Handlers.HandleDataRoomCreated | apps/indexer/src/event-handlers/handlers.ts:80-103 | performs a prefix of its writes: all of them unless a call throws; without the pool a new dataroom throws, and nothing is written |
| Handlers.HandleMemberAdded | apps/indexer/src/event-handlers/handlers.ts:107-135 | performs a prefix of its writes: all of them unless a call throws; nothing at all when the dataroom is unknown |
| Handlers.HandleMemberRemoved | apps/indexer/src/event-handlers/handlers.ts:137-159 | performs a prefix of its writes: all of them unless a call throws; nothing at all when the dataroom is unknown |
| Handlers.HandleMemberRoleUpdated | apps/indexer/src/event-handlers/handlers.ts:161-183 | performs a prefix of its writes: all of them unless a call throws; nothing at all when the dataroom is unknown |
| Handlers.HandleDocumentCreated | apps/indexer/src/event-handlers/handlers.ts:187-234 | performs a prefix of its writes: all of them unless a call throws; the first version row only if the document insert returned a row |
| Handlers.HandleDocumentVersionAdded | apps/indexer/src/event-handlers/handlers.ts:236-266 | performs a prefix of its writes: all of them unless a call throws; version row, version info, audit row |
| Handlers.HandleDocumentReviewed | apps/indexer/src/event-handlers/handlers.ts:268-292 | performs a prefix of its writes: all of them unless a call throws; status, then audit row |
| Handlers.HandleICDecisionCreated | apps/indexer/src/event-handlers/handlers.ts:296-325 | performs a prefix of its writes: all of them unless a call throws; decision row, then audit row |
| Handlers.HandleAuditEvent | apps/indexer/src/event-handlers/handlers.ts:329-345 | performs a prefix of its writes: all of them unless a call throws; the audit row, with the pool if it is known |
| Handlers.Conclude | apps/indexer/src/event-handlers/handlers.ts:42-52 | the audit insert and the cache invalidation that end a handler; the latter may throw after all writes |
| Handlers.HandledIsAudited | apps/indexer/src/event-handlers/handlers.ts:148-156 | a complete handler that found its rows has added one audit row: kind, actor, target, every detail and the pool are those of the event, spelled out per event type |
| Handlers.Handle | apps/indexer/src/event-handlers/index.ts:23-45 | dispatches the eleven event types to these handlers |
| Handlers.FlagIsLocal | apps/indexer/src/event-handlers/handlers.ts:201-221 | what the document insert returned matters to its own handler only |
| Cells.PresentKeepsCore | packages/db/src/repositories/audit-events.repository.ts:43-50 | repeating an insert changes no settled column of any table |
| Cells.ApplyGrows | packages/db/src/repositories/documents.repository.ts:41-55 | rows are never deleted, and a row keeps the columns that others are looked up by |
| Cells.ApplyWrites | packages/db/src/repositories/members.repository.ts:31-64 | an overwriting write leaves its own value in the cell, or the row is missing |
| Cells.ApplyKeeps | packages/db/src/repositories/members.repository.ts:31-64 | every other write leaves the cell alone |
| Cells.ApplyCreates | apps/indexer/src/event-handlers/handlers.ts:32-93 | only a creation event brings an object into existence |
| Replay.ParentsAreStable | apps/indexer/src/event-handlers/handlers.ts:113-114 | an event that finds its parents when first handled finds them ever after, and the other way round |
| Replay.RowStays | packages/db/src/repositories/audit-events.repository.ts:43-50 | a write that went through leaves its row behind for good |
| Replay.LastWriteStays | packages/db/src/repositories/pools.repository.ts:46-55 | the last write to a cell determines it |
| Replay.ReplayStep | apps/indexer/src/event-handlers/handlers.ts:20-345 | executing a write again brings a replayed database one write closer to the clean pass |
| Replay.ReplayMustGoOn | apps/indexer/src/indexer.ts:52-57 | a replay that stops short and is not carried on leaves the old value behind |
| Replay.ApplySame | apps/indexer/src/event-handlers/handlers.ts:20-345 | databases equal but for version rows and counters stay so under every write |
| Runs.InvAfterReplay | apps/indexer/src/indexer.ts:42-72 | the invariant of a run survives the repetition of any earlier write |
| Runs.InvAfterNew | apps/indexer/src/indexer.ts:42-72 | and every write executed for the first time |
| Runs.EveryRunKeepsInv | apps/indexer/src/indexer.ts:42-118 | so it holds in every run with crashes and restarts at any write |
| Runs.Absorption | apps/indexer/src/indexer.ts:42-118 | a run that has caught up is in the state of one clean pass in every table, except for the first version rows of documents cut off right after their insert, and except that versionCount exceeds it by exactly the repeated increments |
| Runs.VersionsExactly | apps/indexer/src/event-handlers/handlers.ts:213-221 | at the end of the log the version rows are those of the clean pass iff no new document was cut off |
| Runs.CutOffLosesTheRow | apps/indexer/src/event-handlers/handlers.ts:201-221 | for every log that creates a document, some run ends without its first version row |
| Runs.RepetitionInflates | packages/db/src/repositories/documents.repository.ts:46-55 | for every version added to a document, some run ends with a versionCount above that of the clean pass |
| Runs.EveryRunInserts | apps/indexer/src/event-handlers/handlers.ts:32-93 | on any log, an insert of a pool or dataroom that was executed at least once has left its row |
| Runs.ReadyDoesNotThrow | apps/indexer/src/event-handlers/handlers.ts:87-93 | in any run on any log, a dataroom insert with its pool or its dataroom in front of it does not throw |
| Runs.RoomBeforePoolBlocks | apps/indexer/src/event-handlers/handlers.ts:87-93 | with neither in front of it, it stops every run: nothing behind it is ever written |
| Runs.RoomBeforePoolStops | apps/indexer/src/event-handlers/handlers.ts:87-93 | the same for every reached state |
| CutShort.CutShortIff | apps/indexer/src/cursor-manager.ts:43-51 | a replay that is not carried on, as after a save that committed and threw all the same: when the run has then gone on to any later point, the tables, apart from version rows and versionCount, are those of the clean pass iff every cell that the replay left with an old value has been overwritten again |
| Log.FlattenWellFormed | apps/indexer/src/indexer.ts:84-117 | a well-formed event log flattens into a well-formed list of writes |
| Log.Segment | apps/indexer/src/indexer.ts:84-101 | the writes of an event lie together, in log order |
| Accounting.VersionCountIsRowCount | packages/db/src/repositories/documents.repository.ts:46-55 | after a failure-free pass versionCount is the number of version rows, for every document |
| Accounting.AuditExactlyOnce | packages/db/src/repositories/audit-events.repository.ts:43-50 | an event passed by the clean pass has its audit row iff it finds its dataroom, document or pool, and the row says who did what to what, in the fields of the event |
| Accounting.AuditRowsAreEvents | packages/db/src/repositories/audit-events.repository.ts:43-50 | there are no other audit rows |
| Contents.AcceptedIff | apps/indexer/src/event-handlers/handlers.ts:87-93 | no insert of the clean pass throws iff each dataroom insert has its pool or its dataroom in front of it |
| Contents.PoolExistsIff | apps/indexer/src/event-handlers/handlers.ts:32-40 | in the clean pass a pool exists iff an event created it |
| Contents.PoolRowIs | packages/db/src/repositories/pools.repository.ts:41-44 | and keeps the columns of the first such event |
| Contents.RoomExistsIff | apps/indexer/src/event-handlers/handlers.ts:87-93 | a dataroom exists iff an event created it whose insert did not throw |
| Contents.RoomRowIs | packages/db/src/repositories/datarooms.repository.ts:32-35 | and its row is that of the first such event |
| Contents.RoomOfPoolIff | packages/db/src/repositories/datarooms.repository.ts:21-28 | the lookup by pool finds a dataroom iff one was made for this pool |
| Contents.RoomOfPoolIs | packages/db/src/repositories/datarooms.repository.ts:21-28 | and finds the first of them |
| Contents.MemberExistsIff | apps/indexer/src/event-handlers/handlers.ts:113-122 | a member row exists iff some event added the member and found its dataroom |
| Contents.MemberRowIff | apps/indexer/src/event-handlers/handlers.ts:113-122 | where no insert throws, iff an event added it after one that created its dataroom |
| Contents.MemberHasPoolOfRoom | packages/db/src/repositories/members.repository.ts:31-46 | the pool of a member is that of its dataroom |
| Contents.VersionRowIs | packages/db/src/repositories/document-versions.repository.ts:31-38 | a version row holds the blob, hash and uploader of the one event that announces this version |
| Contents.AddedVersionIsThere | apps/indexer/src/event-handlers/handlers.ts:242-251 | every version added to an existing document has its row |
| Contents.DocumentExistsIff | apps/indexer/src/event-handlers/handlers.ts:195-211 | a document exists iff an event created it that found its pool and a dataroom |
| Contents.DocumentRowIs | apps/indexer/src/event-handlers/handlers.ts:195-211 | and keeps the columns of the first such event, with the dataroom and the encryption scheme found at that time |
| Contents.ReviewExistsIff | apps/indexer/src/event-handlers/handlers.ts:274-281 | a review exists iff some event reviewed a document that was there |
| Contents.DecisionExistsIff | apps/indexer/src/event-handlers/handlers.ts:302-310 | a decision exists iff an event created it that found its pool |
| Contents.DecisionRowIs | packages/db/src/repositories/ic-decisions.repository.ts:28-35 | and its row is that of the first such event |
| Dispatch.Execute | apps/indexer/src/indexer.ts:84-101 | consecutive writes continue a run |
| Dispatch.PerformedExtends | apps/indexer/src/indexer.ts:100-116 | whatever prefix of its writes a handler performed, the tables are those of a longer run |
| Dispatch.Record | apps/indexer/src/indexer.ts:85-117 | dispatching in order keeps the rule that no event comes before an unaccepted one |
| Dispatch.AcceptedLogIff | apps/indexer/src/event-handlers/handlers.ts:87-93 | no insert of a log throws iff each dataroom event comes after an event for its pool, or after one for the same dataroom |
| Dispatch.StuckBefore | apps/indexer/src/indexer.ts:84-116 | a dataroom event with neither in front of it stops the cursor for good |
| Dispatch.NeverAtTheHead | apps/indexer/src/indexer.ts:35-73 | so a log with such an event is never processed to its head, by any run |
| Dispatch.ContractOrderStops | contracts/rwa_dataroom/sources/pool.move:84-87 | on a log that starts with the events of a new pool in the order of the contract, the cursor never moves |
| IndexerLoop.Indexer.constructor | apps/indexer/src/indexer.ts:29-32 | an empty database is where every run starts |
| IndexerLoop.Indexer.Dispatch | apps/indexer/src/indexer.ts:86-116 | no handler: skipped; duplicate-key error: swallowed; any other error: thrown on, and the event not accepted |
| IndexerLoop.Indexer.CallHandler | apps/indexer/src/indexer.ts:92-101 | the run goes on with the writes performed |
| IndexerLoop.Indexer.ProcessBatch | apps/indexer/src/indexer.ts:84-118 | dispatches the page in order up to the first error that is no duplicate; behind the saved cursor everything stays accepted |
| IndexerLoop.Indexer.SaveCursor | apps/indexer/src/cursor-manager.ts:43-51 | the cursor is saved only when all events before it were accepted |
| IndexerLoop.Indexer.Iterate | apps/indexer/src/indexer.ts:44-61 | poll, batch, save: the cursor moves to the end of the page or stays; a useful page either moves it or uses up a failure; a kill comes from the script |
| IndexerLoop.Indexer.Start | apps/indexer/src/indexer.ts:35-73 | stops before the rounds are used up only when killed; the cursor in memory is the saved one and never goes back; every useful page moves it or uses up a failure, unless it is at the head |
| IndexerLoop.Indexer.Run | apps/indexer/src/indexer.ts:35-73 | with restarts, and enough useful pages for the events and failures left: the cursor gets to the head iff each dataroom event comes after its pool or its dataroom; there, on a well-formed log, the tables are those of one clean pass |
| IndexerLoop.Indexer.StaysBehind | apps/indexer/src/indexer.ts:35-73 | otherwise the saved cursor stays behind the head at all times |
| IndexerLoop.AtTheHead | apps/indexer/src/indexer.ts:42-118 | at the head of the log the tables are those of one clean pass, up to the two exceptions |
| IndexerLoop.CountsAtTheHead | packages/db/src/repositories/documents.repository.ts:46-55 | there versionCount is the number of version rows of the clean pass plus the repeated increments |
| IndexerLoop.AuditInEveryRun | apps/indexer/src/event-handlers/handlers.ts:255-263 | in every run each event behind the cursor has its one audit row iff it finds the rows it needs, and the row says what the event says, per event type |
| IndexerLoop.OnlyEventsAreAudited | packages/db/src/repositories/audit-events.repository.ts:43-50 | in every run no audit row belongs to anything but an event |
| Membership.DroppedMembers | contracts/rwa_dataroom/sources/dataroom.move:97-98 | in any run, member events for an id that no dataroom event carries leave no member row |
| Membership.DroppedAudit | apps/indexer/src/event-handlers/handlers.ts:113-114 | nor any audit row |
| Membership.MemberInRunsIff | apps/indexer/src/event-handlers/handlers.ts:113-122 | at the head of any log that can get there, every run has a row for a member iff an event added it after one that created the dataroom with the id that it carries; some run has one iff there are such events in either order |
| Membership.MemberRowAtTheHead | apps/indexer/src/event-handlers/handlers.ts:113-122 | on a well-formed log, where no dataroom is created behind events that name it, each run has the row iff there is an addition after the creation |
| Latest.LastEventSays | packages/db/src/repositories/members.repository.ts:31-46 | in every run, at the head of a well-formed log, state and transaction of a pool, role, active flag and adder of a member, version of a document and status of a review are those of the last event about them |
| Latest.PoolStartsAtZero | apps/indexer/src/event-handlers/handlers.ts:32-40 | a pool whose state never changed is in state 0, with the transaction that created it |
| Latest.DocumentStartsWithVersion | apps/indexer/src/event-handlers/handlers.ts:201-211 | a document without further versions shows the version that it was created with |
| Retry.WithRetry | packages/walrus-sdk/src/retry.ts:41-70 | the number of attempts, the error of the last one, and the sleeps in between |
| Retry.SucceedsIff | packages/walrus-sdk/src/retry.ts:47-65 | the call succeeds iff some allowed attempt does after retryable failures only; likewise for a final refusal |
| Retry.StopsOnce | packages/walrus-sdk/src/retry.ts:47-65 | the answers determine the number of attempts |
| Retry.FailsOneWay | packages/walrus-sdk/src/retry.ts:47-65 | and the error |
| Retry.NotRetriedIff | packages/walrus-sdk/src/retry.ts:28 | everything is retried but 400, 401, 402, 404 and 413 |
| Retry.RefusedIff | packages/walrus-sdk/src/retry.ts:53-56 | an error with one of these statuses is a final refusal |
| Retry.DocumentedAttemptsIff | packages/walrus-sdk/src/retry.ts:16-19 | an endpoint that keeps answering with one status is asked as often as documented iff one attempt is the limit, or the status is a 5xx or in the list of those not retried |
| Retry.TooManyRequestsIsRetried | packages/walrus-sdk/src/retry.ts:34-40 | 429 is not documented to be retried, and is |
| Retry.SleepsAre | packages/walrus-sdk/src/retry.ts:63-68 | the first sleep is baseDelay, each further one longer by backoffFactor, and none longer than maxDelay |
| Retry.SleepsGrow | packages/walrus-sdk/src/retry.ts:63-68 | sleeps never get shorter for a factor of at least 1, and none exceeds maxDelay |
| Retry.TotalSleep | packages/walrus-sdk/src/retry.ts:58-68 | one call sleeps at most (maxAttempts - 1) * maxDelay |
| Blobs.BlobClient.UploadSingleBlob | packages/walrus-sdk/src/client.ts:174-195 | stores the blob under a fresh id iff the publisher accepts an attempt; ends with 413 iff it refuses it so, and otherwise with the error of the last attempt |
| Blobs.BlobClient.DownloadSingleBlob | packages/walrus-sdk/src/client.ts:198-233 | returns the stored bytes iff some aggregator succeeds with no earlier 404; ends with 404 iff one denies the blob and none before it succeeds, and otherwise with the error of the last attempt at the last aggregator; at most (1 + fallbacks) * maxAttempts fetches |
| Chunks.Split | packages/walrus-sdk/src/chunked-upload.ts:79-86 | the loop cuts the data into its chunks |
| Chunks.ConcatCut | packages/walrus-sdk/src/chunked-upload.ts:79-86 | the chunks put together are the data |
| Chunks.CutSizes | packages/walrus-sdk/src/chunked-upload.ts:81-82 | every chunk is full except the last, and none is empty |
| Chunks.CutCount | packages/walrus-sdk/src/chunked-upload.ts:81-84 | their number is the length divided by chunkSize, rounded up |
| TransferProgress.Recorder.Settle | packages/walrus-sdk/src/chunked-upload.ts:49-63 | one settlement updates the record and reports it |
| TransferProgress.Recorder.Finish | packages/walrus-sdk/src/chunked-upload.ts:64-68 | completion is reported when every chunk has succeeded |
| TransferProgress.TraceAdvances | packages/walrus-sdk/src/chunked-upload.ts:49-63 | each report advances on the one before: counts and percentage never fall and stay within their bounds, failures accumulate |
| TransferProgress.ReportSays | packages/walrus-sdk/src/chunked-upload.ts:49-63 | each report tells what has settled so far: the number of successes, exactly the failures, the nearest percentage, and failed iff something failed |
| TransferProgress.FinalAdvances | packages/walrus-sdk/src/chunked-upload.ts:66-68 | and so does the final one |
| TransferProgress.NoBatchAfterFailure | packages/walrus-sdk/src/chunked-upload.ts:39-64 | no chunk of a later batch is started once one has failed |
| TransferProgress.CompletedMeansAll | packages/walrus-sdk/src/chunked-upload.ts:49-52 | all chunks count as completed iff each was transferred once and none failed |
| TransferProgress.FailedNotCompleted | packages/walrus-sdk/src/chunked-upload.ts:55-57 | no completed chunk is listed as failed |
| ChunkedUpload.ChunkedUploader.UploadChunk | packages/walrus-sdk/src/chunked-upload.ts:41-61 | one task: result by index, progress, error |
| ChunkedUpload.ChunkedUploader.UploadBatch | packages/walrus-sdk/src/chunked-upload.ts:40-64 | at most concurrency tasks, settling in any order |
| ChunkedUpload.ChunkedUploader.Upload | packages/walrus-sdk/src/chunked-upload.ts:18-76 | the manifest describes the data, in order and with sizes, iff no chunk failed; the error is that of the first chunk to fail; the reports follow the settlements |
| ChunkedDownload.SortSorts | packages/walrus-sdk/src/chunked-download.ts:32-33 | the entries are sorted by index |
| ChunkedDownload.SortIsStable | packages/walrus-sdk/src/chunked-download.ts:32-33 | and those with the same index stay in their order |
| ChunkedDownload.DescribesPermuted | packages/walrus-sdk/src/chunked-download.ts:32-43 | the order of the entries in a manifest does not matter |
| ChunkedDownload.Reassemble | packages/walrus-sdk/src/chunked-download.ts:67-76 | succeeds iff every place is filled and everything fits, and then returns the chunks in order |
| ChunkedDownload.ChunkedDownloader.DownloadChunk | packages/walrus-sdk/src/chunked-download.ts:40-55 | one task: bytes by index, progress, error |
| ChunkedDownload.ChunkedDownloader.DownloadBatch | packages/walrus-sdk/src/chunked-download.ts:38-58 | at most concurrency tasks, settling in any order |
| ChunkedDownload.ChunkedDownloader.Download | packages/walrus-sdk/src/chunked-download.ts:17-76 | if no chunk fails, a manifest that describes some data yields that data; any other yields the chunks that the settlements brought put together by index, or an error if they leave a gap or do not fit; if one fails, the error is that of the first to fail |
| ChunkedDownload.GainedIff | packages/walrus-sdk/src/chunked-download.ts:40-45 | for any manifest, a place is filled iff a chunk with its index arrived, and holds the blob of the last such entry to arrive |
| Walrus.WalrusClient.Upload | packages/walrus-sdk/src/client.ts:85-118 | all three paths lead to the data; chunks are used iff the data is above the threshold or refused with 413; an error is that of an operation that the publisher refused |
| Walrus.WalrusClient.Download | packages/walrus-sdk/src/client.ts:126-145 | what an upload returned yields the original bytes, or the error of an operation that no aggregator served; the error names an operation that asked for one of the blobs and ended so |
| Walrus.StillLeadsTo | packages/walrus-sdk/src/client.ts:126-145 | later uploads and a shuffled manifest do not change that |
| RateLimit.RateLimiter.Execute | apps/api/src/common/guards/rate-limit.guard.ts:35-42 | trim, add, count, expire: the count is that of the full history within the window |
| RateLimit.RateLimiter.CanActivate | apps/api/src/common/guards/rate-limit.guard.ts:32-58 | every decision is the one that a limiter keeping the full history makes |
| RateLimit.TrimKeepsRecent | apps/api/src/common/guards/rate-limit.guard.ts:36 | trimming removes exactly what no longer counts |
| RateLimit.ExpiredDoesNotCount | apps/api/src/common/guards/rate-limit.guard.ts:39 | when the key expires, none of its members counts any more |
| RateLimit.RecentCount | apps/api/src/common/guards/rate-limit.guard.ts:38 | the cardinality of the set is the number of executed requests in the window |
| RateLimit.WindowBound | apps/api/src/common/guards/rate-limit.guard.ts:43-58 | in every window of every run at most limit requests are admitted, besides those without an answer |
| RateLimit.LimitKeptIff | apps/api/src/common/guards/rate-limit.guard.ts:35-58 | the limit itself holds in every window of every run over a list of pipelines iff all of them were executed and only the first limit of them may lose their reply, or there are at most limit of them, or the window is empty |
| RateLimit.BurstExceeds | apps/api/src/common/guards/rate-limit.guard.ts:43-58 | otherwise a burst of all requests at time 0 gets more than limit of them admitted |
| RateLimit.AdmittedIff | apps/api/src/common/guards/rate-limit.guard.ts:35-58 | a request passes iff its results do not come back, or fewer than limit executed requests are less than one window old |
| RateLimit.RejectedOnlyWhenFull | apps/api/src/common/guards/rate-limit.guard.ts:43 | a request is rejected only when the window already holds limit requests |
| Sessions.SessionService.CreateSession | apps/api/src/modules/auth/session.service.ts:49-76 | a new key that lives 604800 seconds |
| Sessions.SessionService.UpdateSession | apps/api/src/modules/auth/session.service.ts:84-96 | a new hash and the time of activity, for the remaining time; nothing when no second is reported to remain; the rest of the record and all other sessions stay as they are |
| Sessions.UpdatedIff | apps/api/src/modules/auth/session.service.ts:84-96 | this says everything about the sessions after an update |
| Sessions.SessionService.GetSessionByRefreshHash | apps/api/src/modules/auth/session.service.ts:98-115 | the paged scan finds a live session with the hash iff there is one |
| Sessions.RenewedLater | apps/api/src/modules/auth/session.service.ts:89-95 | setting a key again moves its deadline later iff the remaining time was rounded up |
| Sessions.RenewedWhole | apps/api/src/modules/auth/session.service.ts:89-95 | with all times in whole seconds the deadline does not move |
| Sessions.DeadlineKeptIff | apps/api/src/modules/auth/session.service.ts:84-95 | a session keeps its deadline under every sequence of updates iff the store rounds down |
| Sessions.EachUpdatePostpones | apps/api/src/modules/auth/session.service.ts:84-95 | otherwise updates at the right intervals, the first in the last second, each find it live, rotate its hash and postpone its deadline |
| Sessions.NeverExpires | apps/api/src/modules/auth/session.service.ts:84-95 | so that every session can be made to outlive any date |
| Auth.AuthService.Login | apps/api/src/modules/auth/auth.service.ts:59-82 | the session accepts the issued token; the access token is signed for the user, with the role |
| Auth.AuthService.Refresh | apps/api/src/modules/auth/auth.service.ts:168-214 | succeeds iff the session accepts the token, then rotates it; the new token is the accepted one iff at least one second was reported to remain; the access token is signed for who logged in; a live session is destroyed when another token is presented |
| Auth.AuthService.RefreshByCookie | apps/api/src/modules/auth/auth.service.ts:216-248 | succeeds iff some session accepts the token, and rotates the token of that session, with the same condition on the new one; the access token is signed for who opened that session |
| Auth.AuthService.Logout | apps/api/src/modules/auth/auth.service.ts:250-256 | the session is gone, and the access token is blocked until it expires, and less than a second longer |
| Auth.AuthService.RetiredIsDead | apps/api/src/modules/auth/auth.service.ts:178-187 | a replaced token is accepted by no session |
| Auth.AuthService.OneSessionPerToken | apps/api/src/modules/auth/session.service.ts:98-115 | no two sessions accept the same token, so the scan has the one result that an index would give |
| Auth.AuthService.IdentityIsThatOfLogin | apps/api/src/modules/auth/auth.service.ts:193-199 | the stored user, address and organisation are those of the login, through all refreshes |
| Auth.AuthService.Deadline | apps/api/src/modules/auth/session.service.ts:88-95 | no session outlives its creation by more than 604800 seconds, if the store rounds down or all calls come at whole seconds |
| Auth.RefreshKeeps | apps/api/src/modules/auth/auth.service.ts:189-194 | a refresh keeps every session bound to one token of its own, issued and not retired |
| Auth.RetiredStays | apps/api/src/modules/auth/auth.service.ts:168-214 | over any sequence of logins, refreshes and deletions, a retired token stays retired and is never again the one that a session accepts |
| Auth.ReplacedForGood | apps/api/src/modules/auth/auth.service.ts:189-194 | the token that a refresh replaces is accepted by no session ever after |
| Auth.VisitorStays | apps/api/src/modules/auth/auth.service.ts:168-248 | over any sequence of steps that does not delete it, a session belongs to the one who opened it |
| Auth.ClaimsKeptIff | apps/api/src/modules/auth/auth.service.ts:193-199 | a refresh signs the claims of the login iff the role was 0 or unknown then: it always signs role 0 |
| Auth.RotationTakesEffectIff | apps/api/src/modules/auth/session.service.ts:88-95 | after an update the session accepts the new token iff at least one second was reported to remain, and the old one otherwise |
| Auth.EverySessionCloses | apps/api/src/modules/auth/session.service.ts:88-95 | every session has such moments: from 999 - carry milliseconds before its expiry, a refresh leaves the old token in force and hands out one that is not accepted |
| Csv.RoundTripIff | apps/api/src/modules/audit/audit.service.ts:46-58 | reading an export by section 2 of RFC 4180 gives the seven header names and under each of them that attribute of every event, null as the empty field, iff every attribute with a line feed also has a comma or a quote |
| Csv.CsvIsText | apps/api/src/modules/audit/audit.service.ts:47-57 | the nested joins write the header and one record per event |
| Csv.TableIsExport | apps/api/src/modules/audit/audit.service.ts:48-51 | in what is written, the cell under each header name is the attribute of that name |
| Csv.EmptyIff | apps/api/src/modules/audit/audit.service.ts:47 | only no events at all give no text |
| Csv.FieldReadBack | apps/api/src/modules/audit/audit.service.ts:54 | quoting and quote doubling are undone, at any length |
| Csv.TextReadBack | apps/api/src/modules/audit/audit.service.ts:57 | records of such fields are read back |
| Csv.ReadsBroken | apps/api/src/modules/audit/audit.service.ts:54-57 | what the reader makes of any export at all: a line feed outside quotes ends one record and starts another |
| Csv.LineFeedBreaks | apps/api/src/modules/audit/audit.service.ts:54 | a concrete event whose export does not read back |

## Left out

- Key wrapping, encryption, hashing, signatures, zkLogin checks and JWTs: calls into foreign code.
- Transaction builders, RPC clients, HTTP, Redis and Postgres themselves: only their effect on maps, sets and logs is modelled.
- Controllers, modules, schemas and the web front end.
- The pool transition table and the role bitmasks: finite tables, settled by enumeration.
- Pool, dataroom, document and review services: existence and organisation checks settled by reading one branch.
- Columns set from the wall clock (addedAt, revokedAt, reviewedAt, lastUpdatedAt), serial ids, and the columns that events never write (orgId, memberCount, commentHash).
- Check constraints and column widths of the database: events are taken to carry values that the columns accept.
- What is in the Redis cache: invalidation is a call that may throw, nothing more.
- The encoding of the cursor as JSON, and the health check that reads it.
- `extend` of a stored blob, and blob expiry.
- Challenges, and the check of blacklisted tokens on each request.
- `running` and `stop`: the loop ends where the scripted rounds end, so stopping is covered at every iteration, and sleeping between polls is not modelled.
- Interleavings inside one auth call or one limiter pipeline, and limiter keys shared by routes with different windows.
- RateLimit.RateLimiter.CanActivate: does not model the Retry-After header and the error body, which depend on the window alone.
- Blobs.BlobClient.UploadSingleBlob: does not model a publisher that stores the blob although its answer is lost; a retry then stores it twice under two ids.
- ChunkedDownload.ChunkedDownloader.Download: does not model indices that are no integers.
- TransferProgress.Recorder.Settle: does not model that the reports share one array of failed chunks (`packages/walrus-sdk/src/chunked-upload.ts:55-57`), so that a later failure also shows in the reports before it; the reports here are snapshots.
