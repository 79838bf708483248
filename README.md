# social-network, modelled in Dafny

This project models the core of a social network. The network has a Go back end (REST services over SQLite, plus a real-time WebSocket hub), a Next.js web client, and an Electron desktop client. Every `.dfy` file models one source file or one service of the system, and proves what that code promises.

- **Real-time hub** (`hub.dfy`, backend/pkg/websocket/websocket.go). This is the registry of connected clients, with one list of clients per user. It covers:
  - registering, unregistering and broadcasting;
  - the heartbeat sweep;
  - the `user_active` / `user_away` control frames, and the online/offline presence calls.

  Clients are a class updated in place. A client's buffered Send channel is a bounded FIFO with a closed flag. Go's unspecified map iteration order is an explicit `order` parameter.
- **Back-end infrastructure**:
  - HS256 JWTs with base64url segments (`jwt.dfy`);
  - the sliding-window rate limiter (`ratelimit.dfy`);
  - the SQLite schema generator and migration numbering (`schema.dfy`);
  - the shared `user_stats` counters (`userstats.dfy`);
  - the cookie session manager (`session_manager.dfy`);
  - the upload store (`filestore.dfy`).
- **Domain repositories and services**: groups, follows, posts, events, private chat, profiles and notifications. Each repository is a class over the tables it writes. Each table is a sequence of rows in insertion order, and its invariants are stated as `Valid()`. Each service method checks the source's guards in the source's order, then calls the repository.
- **Clients**:
  - the desktop chat store, the WebSocket service, the user-status service, the toast manager and other UI helpers;
  - the web client's chat, group-chat and user-status hooks, the route guard, and `formatRelativeTime`.

  A React hook's state update is a function from the old state to the new one. A desktop service is a class.

Clocks, UUIDs, `navigator.onLine`, request outcomes, HMAC-SHA256 and `JSON.parse` are parameters. The model follows the code as written. Three behaviours stand out:

- The broadcast path drops a full client from the client set alone, so the two maps of the registry do not always agree (see "## Findings").
- A client's `Done` channel can be closed twice (see "## Findings").
- `SetUserOffline` deletes a user's entry while that user's clients stay registered (`WebSocketHub.OfflineBreaksConsistency`).

## Model

| member | source | states |
|---|---|---|
| WebSocketHub.ClientState.Deactivated | backend/pkg/websocket/websocket.go:326-331 | a closed-out tab is inactive and its connection closed (if it was active) |
| WebSocketHub.ClientState.Evicted | backend/pkg/websocket/websocket.go:549-558 | an evicted client is inactive with its connection, Send and Done closed, queue and ping time untouched |
| WebSocketHub.ClientState.Offered | backend/pkg/websocket/websocket.go:189-194 | a non-blocking send appends the payload when the queue has room and otherwise drops it; nothing but the queue changes |
| WebSocketHub.Client.constructor | backend/internal/websocket/handler.go:78-88 | a new client is active, pinged now, with an empty queue and all channels open |
| WebSocketHub.Client.HandlePing | backend/pkg/websocket/websocket.go:437-452 | the ping time is set to now; the pong is queued when there is room, a full queue blocks and a closed one panics |
| WebSocketHub.Client.WriteBatch | backend/pkg/websocket/websocket.go:372-397 | one write turn sends every queued message joined by newlines in one text frame, or a close frame once Send is closed and drained, and empties the queue |
| WebSocketHub.DetachedSingle | backend/pkg/websocket/websocket.go:122-133 | removing a client from its user's list keeps every list at most one entry long |
| WebSocketHub.DetachedConsistent | backend/pkg/websocket/websocket.go:117-133 | in a consistent registry, detaching a registered client deletes its user's entry and keeps the two maps consistent |
| WebSocketHub.RemoveAllClients | backend/pkg/websocket/websocket.go:141-149 | removing a list of clients along any path removes exactly them from the client set; the broadcast drop touches nothing else |
| WebSocketHub.RemoveAllSingle | backend/pkg/websocket/websocket.go:115-137 | removals keep every user list at most one entry long |
| WebSocketHub.RemoveAllConsistent | backend/pkg/websocket/websocket.go:545-579 | outside the broadcast drop, removing distinct registered clients one at a time equals removing them and their users at once, and keeps the maps consistent |
| WebSocketHub.RegisterConsistent | backend/pkg/websocket/websocket.go:91-110 | registering replaces the user's clients by the new one and keeps the maps consistent |
| WebSocketHub.SingleSessionPerUser | backend/pkg/websocket/websocket.go:91-110 | in a consistent registry a user has at most one registered client |
| WebSocketHub.FilterById | backend/pkg/websocket/websocket.go:337-343 | the rebuilt list holds exactly the listed clients with the sender's id, in order |
| WebSocketHub.StaleActiveEmptiesEntry | backend/pkg/websocket/websocket.go:336-343 | a `user_active` frame from a client no longer listed empties its user's list and breaks consistency |
| WebSocketHub.OfflineBreaksConsistency | backend/pkg/websocket/websocket.go:492-495 | deleting a user's entry while its client stays registered breaks consistency |
| WebSocketHub.DropBreaksConsistency | backend/pkg/websocket/websocket.go:145-148 | dropping clients from the client set alone breaks consistency |
| WebSocketHub.CloseDuplicates | backend/pkg/websocket/websocket.go:320-334 | every other tab of the user is deactivated and the user counts as previously offline exactly when none of them was active |
| WebSocketHub.Swept | backend/pkg/websocket/websocket.go:546-558 | the sweep evicts exactly a stale client and leaves any other unchanged |
| WebSocketHub.PickedSpec | backend/pkg/websocket/websocket.go:545-546 | the clients a pass picks are exactly those whose state passes the test |
| WebSocketHub.RemovalFromSpec | backend/pkg/websocket/websocket.go:545-581 | a removal pass over the iteration order equals removing the picked clients in that order |
| WebSocketHub.FannedOut | backend/pkg/websocket/websocket.go:141-148 | a targeted client gets the payload queued, or its Send closed when the queue is full; an untargeted one is unchanged |
| WebSocketHub.Hub.constructor | backend/pkg/websocket/websocket.go:63-75 | a new hub has no clients, no user entries and no trace, and is consistent |
| WebSocketHub.Hub.CloseExisting | backend/pkg/websocket/websocket.go:93-104 | every existing client leaves the client set with Send and connection closed; closing an already closed Send panics |
| WebSocketHub.Hub.Register | backend/pkg/websocket/websocket.go:88-113 | the user's old clients leave the set, the new client joins, the user's list becomes exactly `[client]`, other users are untouched; from a consistent hub it never panics, stays consistent and leaves one client for the user |
| WebSocketHub.Hub.Unregister | backend/pkg/websocket/websocket.go:115-137 | a registered client leaves both maps (the user's entry goes when its list empties) with Send closed; an unregistered one changes nothing; consistency is kept |
| WebSocketHub.Hub.BroadcastToUser | backend/pkg/websocket/websocket.go:170-198 | no payload or no entry changes nothing; each active client of the user is offered the payload without blocking; it panics exactly when an active listed client's Send is closed, which a consistent hub rules out |
| WebSocketHub.Hub.DetachById | backend/pkg/websocket/websocket.go:561-571 | the client is removed by id from its user's list and an emptied entry is deleted |
| WebSocketHub.Hub.Deliver | backend/pkg/websocket/websocket.go:143-148 | one client's broadcast step follows `FannedOut` and drops it from the registry when its queue is full |
| WebSocketHub.Hub.SendAll | backend/pkg/websocket/websocket.go:141-149 | the broadcast loop fans the payload out to every client and performs the removal pass of the full queues |
| WebSocketHub.Hub.FanOut | backend/pkg/websocket/websocket.go:139-150 | every client gets the payload or is dropped from the client set alone, so consistency is lost whenever a client is dropped |
| WebSocketHub.Hub.HasActiveClient | backend/pkg/websocket/websocket.go:225-242 | true exactly when one of the user's listed clients is active |
| WebSocketHub.Hub.GetActiveConnectionCount | backend/pkg/websocket/websocket.go:407-418 | the count of registered active clients of the user |
| WebSocketHub.Hub.HasClientWithID | backend/pkg/websocket/websocket.go:590-600 | true exactly when some registered client with the ID is active |
| WebSocketHub.Hub.CloseClientWithID | backend/pkg/websocket/websocket.go:602-616 | found exactly when some client has the ID; the first such client in iteration order becomes inactive with its connection closed and stays registered; every other client is unchanged |
| WebSocketHub.Hub.DeactivateActive | backend/pkg/websocket/websocket.go:425-431 | exactly the clients of the list that were active are collected, each made inactive with its connection closed; the inactive ones keep their state |
| WebSocketHub.Hub.CloseUserConnections | backend/pkg/websocket/websocket.go:420-435 | every active listed client of the user (at most one) is deactivated, its connection closed and unregistered; the user's entry is deleted and inactive entries are untouched; consistency is kept when a client was handed over and broken when the entry held only inactive clients |
| WebSocketHub.Hub.Evict | backend/pkg/websocket/websocket.go:549-579 | one eviction is the heartbeat removal step: the client leaves both maps, is closed, and an emptied user gets a `SetUserOffline` goroutine |
| WebSocketHub.Hub.Visit | backend/pkg/websocket/websocket.go:546-580 | one client of the sweep is evicted exactly when stale |
| WebSocketHub.Hub.Sweep | backend/pkg/websocket/websocket.go:545-581 | the sweep loop is the heartbeat removal pass over the iteration order |
| WebSocketHub.Hub.CheckHeartbeats | backend/pkg/websocket/websocket.go:540-582 | exactly the active clients silent for longer than the timeout are evicted from both maps, each emptied user spawns `SetUserOffline`, and consistency is kept |
| WebSocketHub.Hub.UserAway | backend/pkg/websocket/websocket.go:280-308 | the client turns inactive, and `SetUserOffline` is spawned exactly when no other listed tab of the user is active |
| WebSocketHub.Hub.CloseOtherTabs | backend/pkg/websocket/websocket.go:319-345 | other tabs are deactivated, the user's list keeps only the sender's id, and the user was offline exactly when no other tab was active |
| WebSocketHub.Hub.UserActive | backend/pkg/websocket/websocket.go:311-356 | the client turns active, the other tabs are closed out, the user's list keeps only the sender, and `SetUserOnline` is spawned exactly when no other tab was active |
| WebSocketHub.Hub.SetUserOnline | backend/pkg/websocket/websocket.go:455-474 | the status service is told the user is online only when the user has no listed client |
| WebSocketHub.Hub.SetUserOffline | backend/pkg/websocket/websocket.go:477-519 | the user's tabs are deactivated, the entry is deleted, the status service is told; the clients stay registered, which breaks consistency |
| WebSocketHub.Hub.Disconnect | backend/pkg/websocket/websocket.go:245-250 | the read pump's exit unregisters the client and closes the connection and Done; it panics exactly when Done was already closed |
| WebSocketHub.Hub.DisconnectOnce | backend/pkg/websocket/websocket.go:245-250 | the corrected exit closes Done only once, and never panics |
| WebSocketHub.Hub.FanOutDetaching | backend/pkg/websocket/websocket.go:139-150 | the corrected broadcast drops full clients from both maps and keeps the hub consistent |
| WebSocketHub.DropThenRegister | backend/pkg/websocket/websocket.go:93-104 | a broadcast drop followed by a new tab of the same user closes the dropped client's Send twice: a panic |
| WebSocketHub.DropThenRegisterDetaching | backend/pkg/websocket/websocket.go:139-150 | with the corrected broadcast the same sequence does not panic |
| WebSocketHub.TimeoutThenDisconnect | backend/pkg/websocket/websocket.go:558 | a heartbeat eviction followed by the read pump's exit closes Done twice: a panic |
| WebSocketHub.RemoveFirstId | backend/pkg/websocket/websocket.go:123-128 | removing the first client with the id shortens the list by one exactly when such a client is listed, adds no client, and keeps the list otherwise |
| WebSocketHub.RemoveById | backend/pkg/websocket/websocket.go:561-567 | the loop removes the first client with the id, as `RemoveFirstId` states |
| WebSocketHub.Detached | backend/pkg/websocket/websocket.go:122-133 | other users' entries are untouched; the client's user keeps a non-empty list with the client removed, or loses the entry when the list empties |
| WebSocketHub.OfflineAll | backend/pkg/websocket/websocket.go:573-578 | one `SetUserOffline` call per evicted client, in order |
| WebSocketHub.Removed | backend/pkg/websocket/websocket.go:545-579 | deregistering a list removes exactly its clients and their users' entries, and spawns one offline call per client on the heartbeat path |
| WebSocketHub.RemovalConsistent | backend/pkg/websocket/websocket.go:115-137 | deregistering a registered client of a consistent registry removes it and its user's entry, and keeps the registry consistent |
| WebSocketHub.RemovedSnoc | backend/pkg/websocket/websocket.go:545-579 | deregistering one more client removes it and its user's entry from the closed form |
| WebSocketHub.KeepId | backend/pkg/websocket/websocket.go:337-343 | exactly the listed clients with the id are kept, and the list does not grow |
| WebSocketHub.PickedStates | backend/pkg/websocket/websocket.go:545-546 | a pass over the iteration order picks exactly the clients whose state passes the test, each once |
| Jwt.StdValue | backend/internal/auth/jwt.go:174 | decoding a standard base64 character inverts its encoding |
| Jwt.StdCharValue | backend/internal/auth/jwt.go:174 | every 6-bit value encodes to a standard character that decodes back to it |
| Jwt.StdChar | backend/internal/auth/jwt.go:174 | the character of a 6-bit value is never `=`, `.`, `-` or `_` |
| Jwt.StdEncode | backend/internal/auth/jwt.go:174 | standard base64 text has four characters per started group of three bytes |
| Jwt.StdEncodeShape | backend/internal/auth/jwt.go:174 | standard base64 text is a multiple of four long: alphabet characters for the data, then fewer than four `=` |
| Jwt.StdDecode | backend/internal/auth/jwt.go:193 | a decoded text has a length that is a multiple of four |
| Jwt.QuadDecodes | backend/internal/auth/jwt.go:193 | a full four-character group decodes to its three bytes ahead of the rest |
| Jwt.StdRoundTrip | backend/internal/auth/jwt.go:174-193 | standard decoding inverts standard encoding for every byte string |
| Jwt.ToUrl | backend/internal/auth/jwt.go:175-176 | `+` and `/` are replaced character by character |
| Jwt.FromUrl | backend/internal/auth/jwt.go:190-191 | `-` and `_` are replaced character by character |
| Jwt.Padded | backend/internal/auth/jwt.go:184-187 | padding brings the length to a multiple of four with fewer than four `=` |
| Jwt.UrlEncode | backend/internal/auth/jwt.go:173-179 | base64url text is the standard text with `+` and `/` mapped to `-` and `_` and the padding trimmed: one character per unpadded standard character, with no `+`, `/`, `=` or `.` |
| Jwt.UrlDecodeRestores | backend/internal/auth/jwt.go:182-191 | re-padding and re-mapping a base64url text restores the standard text |
| Jwt.UrlRoundTrip | backend/internal/auth/jwt.go:173-194 | `base64URLDecode` inverts `base64URLEncode` for every byte string |
| Jwt.UrlDecode | backend/internal/auth/jwt.go:182-194 | a text one past a multiple of four long is rejected |
| Jwt.StrayPaddingRejected | backend/internal/auth/jwt.go:184-193 | re-padding a text one past a multiple of four long and decoding it always fails |
| Jwt.StdDecodeRejectsAt | backend/internal/auth/jwt.go:193 | a `=` in the second place of a group is rejected |
| Jwt.Signature | backend/internal/auth/jwt.go:197-201 | a signature never contains the `.` separator |
| Jwt.ValidateToken | backend/internal/auth/jwt.go:84-146 | an accepted token has three segments, a matching signature and decodable claims, is inside its validity window, and with a store the user has a live session |
| Jwt.GenerateToken | backend/internal/auth/jwt.go:39-81 | the token splits on `.` into exactly three segments: the base64url header, the base64url claims issued now (expiry now plus the duration, issued and not-before now, the configured issuer, the user as subject), and the signature of the first two joined by `.` |
| Jwt.GenerateThenValidate | backend/internal/auth/jwt.go:39-146 | a token generated at `issued` validates to its claims at every moment of its lifetime |
| Jwt.ExpiryIsInclusive | backend/internal/auth/jwt.go:112-115 | the token still validates at its expiry second and is rejected as expired one second later |
| Jwt.TamperedSignatureRejected | backend/internal/auth/jwt.go:93-99 | a token whose third segment is not the signature of the first two is rejected |
| Jwt.ExtractToken | backend/internal/auth/jwt.go:149-168 | the token is missing exactly when there is no query token and the header is not `Bearer <token>` |
| Jwt.BearerHeaderWins | backend/internal/auth/jwt.go:152-157 | a Bearer header wins over the query parameter |
| Jwt.OtherHeaderDefers | backend/internal/auth/jwt.go:160-167 | any other header falls back to the query parameter, then to the error |
| Jwt.OneByteRoundTrip | backend/internal/auth/jwt.go:174-193 | one byte, encoded with two padding characters, decodes back to itself |
| Jwt.TwoBytesRoundTrip | backend/internal/auth/jwt.go:174-193 | two bytes, encoded with one padding character, decode back to themselves |
| Jwt.PaddingRestored | backend/internal/auth/jwt.go:173-187 | re-padding a base64url text gives back the padded standard text with the URL alphabet |
| RateLimit.ClientKey | backend/pkg/middleware/ratelimit.go:31-37 | the client key is the X-Forwarded-For header when non-empty, else the remote address |
| RateLimit.AfterMembers | backend/pkg/middleware/ratelimit.go:51-56 | pruning keeps exactly the timestamps strictly after the cutoff |
| RateLimit.AfterAppend | backend/pkg/middleware/ratelimit.go:51-56 | pruning distributes over concatenation, so surviving timestamps keep their relative order |
| RateLimit.AfterIdempotent | backend/pkg/middleware/ratelimit.go:46-58 | pruning twice with the same cutoff is pruning once |
| RateLimit.Prune | backend/pkg/middleware/ratelimit.go:50-58 | the pruning loop returns the filtered list, in order |
| RateLimit.Recent | backend/pkg/middleware/ratelimit.go:50-61 | a key without an entry counts zero requests; otherwise its pruned list is counted |
| RateLimit.RateLimiter.constructor | backend/pkg/middleware/ratelimit.go:21-28 | a new limiter has the given limit and window and an empty request table |
| RateLimit.RateLimiter.Handle | backend/pkg/middleware/ratelimit.go:40-76 | admitted iff fewer than `limit` recent requests remain; an admitted request is appended after pruning, a refused one is not recorded (only the pruning is stored); other keys are untouched; every stored time is inside the window or now |
| RateLimit.BurstAtOneInstant | backend/pkg/middleware/ratelimit.go:61-71 | with limit 2, two requests at one instant are admitted and the third refused |
| RateLimit.AdmittedAfterWindow | backend/pkg/middleware/ratelimit.go:48-61 | with limit 1, a request one tick before the window has passed is refused and one exactly a window later is admitted (`After` is strict) |
| RateLimit.After | backend/pkg/middleware/ratelimit.go:51-56 | pruning never adds a timestamp |
| UserStats.Bump | backend/internal/follow/repository.go:214-248 | the step always leaves a row for the user and creates no other row |
| UserStats.BumpStep | backend/internal/follow/repository.go:224-245 | an existing counter goes up by one or down by one clamped at 0, a missing row starts at 1 or 0; counters stay non-negative; no other user or column changes |
| UserStats.BumpUndo | backend/internal/follow/repository.go:224-245 | an increment followed by a decrement of the same counter restores its value |
| Schema.SqliteType | backend/pkg/db/sqlite/sqlite.go:567-591 | every Go type maps to one of six SQLite types; INTEGER exactly for the integer kinds, BLOB exactly for byte slices, TIMESTAMP exactly for `time.Time` |
| Schema.CamelToSnake | backend/pkg/db/sqlite/sqlite.go:594-603 | the builder loop computes the snake-case name: an underscore before every upper-case letter but the first, then lower-cased |
| Schema.SnakeCase | backend/pkg/db/sqlite/sqlite.go:594-603 | the snake-case name has no upper-case letter, and a name without one is its own snake case (so converting twice is converting once) |
| Schema.Pluralize | backend/pkg/db/sqlite/sqlite.go:336-339 | the table name ends in "s"; an "s" is added only when missing |
| Schema.PluralizeIdempotent | backend/pkg/db/sqlite/sqlite.go:336-339 | pluralizing twice is pluralizing once |
| Schema.WithOptionsFlags | backend/pkg/db/sqlite/sqlite.go:471-487 | the tag options set PRIMARY KEY, NOT NULL and UNIQUE exactly when "pk", "notnull" or "unique" occurs; the last `default=` option wins; no option changes the name or type |
| Schema.ExtractColumn | backend/pkg/db/sqlite/sqlite.go:458-496 | the method's column equals the column specification `ColumnOf` |
| Schema.ColumnOf | backend/pkg/db/sqlite/sqlite.go:458-496 | a "-" tag gives an unnamed column; an empty tag gives the snake-cased field name and no flags; otherwise the name is the tag's first comma piece; the type is the type mapping of the Go type |
| Schema.ColumnOfFlags | backend/pkg/db/sqlite/sqlite.go:471-487 | a tagged field is PRIMARY KEY, NOT NULL or UNIQUE exactly when its options list "pk", "notnull" or "unique" |
| Schema.WithOptionFlags | backend/pkg/db/sqlite/sqlite.go:474-486 | one option sets the flag it names, leaves the others, and never changes the name or type |
| Schema.WithOptionsDefault | backend/pkg/db/sqlite/sqlite.go:480-483 | the last `default=` option gives the default; without one the default is untouched |
| Schema.ScanKeyTag | backend/pkg/db/sqlite/sqlite.go:350-360 | the scan of one `db` tag for `pk(` parts computes the composite-key specification `KeyFromTag` |
| Schema.KeyFromParts | backend/pkg/db/sqlite/sqlite.go:352-358 | pieces none of which reads `pk(...)` leave the key unchanged |
| Schema.KeyFromPartsSource | backend/pkg/db/sqlite/sqlite.go:352-358 | the scanned key is the old one or the columns of one of the pieces that reads `pk(...)` |
| Schema.KeyFromTag | backend/pkg/db/sqlite/sqlite.go:350-358 | as written, a tag none of whose comma pieces reads `pk(...)` leaves the key unchanged |
| Schema.KeyFromTagSource | backend/pkg/db/sqlite/sqlite.go:350-358 | as written, the key read from a tag is the old one or the columns of a comma-free piece that reads `pk(...)` |
| Schema.KeyFromTagFixed | backend/pkg/db/sqlite/sqlite.go:350-358 | the corrected scan leaves the key unless some piece opens `pk(`, and otherwise reads at least one comma-free column name |
| Schema.CompositeKeyLost | backend/pkg/db/sqlite/sqlite.go:352-358 | as written, a tag `pk(a,b)` is split on commas before the `pk(` test, so neither piece matches and the composite key is never recorded |
| Schema.KeyFromTagFixedReadsKey | backend/pkg/db/sqlite/sqlite.go:350-358 | the corrected scan reads back every column of `pk(c1,...,cn)` in order |
| Schema.IndexOptionsUnique | backend/pkg/db/sqlite/sqlite.go:388-398 | an index is unique exactly when a "unique" option occurs, and keeps the `idx_<table>_<column>` name unless a `name=` option is given |
| Schema.ParseIndexTag | backend/pkg/db/sqlite/sqlite.go:386-405 | the index loop computes the index specification `IndexFor` |
| Schema.FieldIndexes | backend/pkg/db/sqlite/sqlite.go:386-405 | an exported field with an `index` tag contributes exactly one single-column index, any other field none |
| Schema.IndexesOfSingleColumn | backend/pkg/db/sqlite/sqlite.go:386-405 | every index a struct's fields ask for is on one column |
| Schema.CollectField | backend/pkg/db/sqlite/sqlite.go:364-405 | one iteration of the second pass yields the field's column and index specifications |
| Schema.ShouldIgnore | backend/pkg/db/sqlite/sqlite.go:417-455 | the loop decides exactly the `Ignored` predicate: a `db:"-"` marker field, all exported fields tagged "-", or one of the three embedding struct names |
| Schema.ScanKeys | backend/pkg/db/sqlite/sqlite.go:345-361 | the first pass over the fields computes the composite key `KeyFromFields` (the last matching tag wins) |
| Schema.CollectColumns | backend/pkg/db/sqlite/sqlite.go:363-406 | the second pass computes the column list and the index list of their specifications |
| Schema.ExtractTable | backend/pkg/db/sqlite/sqlite.go:321-414 | the method's table (or error for an ignored struct) equals `TableOf` |
| Schema.TableOf | backend/pkg/db/sqlite/sqlite.go:321-414 | an error exactly for an ignored struct; otherwise the table name is the pluralized snake case of the struct name and ends in "s" |
| Schema.ColumnsOfSpec | backend/pkg/db/sqlite/sqlite.go:373-383 | every collected column has a name, and no column of the composite key is marked as a single primary key |
| Schema.ColumnsOfComplete | backend/pkg/db/sqlite/sqlite.go:364-383 | every exported field with a column name contributes its column |
| Schema.IndexesOfCount | backend/pkg/db/sqlite/sqlite.go:385-405 | one single-column index per exported field with an `index` tag |
| Schema.TableOfSpec | backend/pkg/db/sqlite/sqlite.go:321-414 | an extracted table has a plural name, named columns, no composite-key column marked primary, every exported named field's column, and one index per indexed field |
| Schema.AutoincrementExactly | backend/pkg/db/sqlite/sqlite.go:512-518 | AUTOINCREMENT is emitted exactly for an integer primary key, a plain PRIMARY KEY exactly for any other primary key |
| Schema.IndexLines | backend/pkg/db/sqlite/sqlite.go:551-561 | one `CREATE ... ;` line per index |
| Schema.WriteColumns | backend/pkg/db/sqlite/sqlite.go:504-535 | the column loop writes the column definitions joined by ",\n" |
| Schema.WriteKeyClause | backend/pkg/db/sqlite/sqlite.go:537-547 | the key loop writes the PRIMARY KEY clause, empty for no composite key |
| Schema.WriteIndexes | backend/pkg/db/sqlite/sqlite.go:551-561 | the index loop writes the concatenated index lines |
| Schema.GenerateCreateTable | backend/pkg/db/sqlite/sqlite.go:499-564 | the builder produces exactly the `CreateTableSQL` text |
| Schema.CreateTableSQL | backend/pkg/db/sqlite/sqlite.go:499-564 | the text starts with `CREATE TABLE IF NOT EXISTS <name> (` and a newline; it ends with `);` and a blank line without indexes, and with the last index line's `;` otherwise |
| Schema.SchemasEqual | backend/pkg/db/sqlite/sqlite.go:791-824 | true exactly when the column counts match, every target column has a same-named current column with the same type, NOT NULL and key flag, and the index counts match |
| Schema.ByNameFinds | backend/pkg/db/sqlite/sqlite.go:798-801 | with distinct names, the name map finds every column |
| Schema.SameSchemaReflexive | backend/pkg/db/sqlite/sqlite.go:791-824 | a table with distinct column names equals itself |
| Schema.SameSchemaDuplicateName | backend/pkg/db/sqlite/sqlite.go:798-815 | two columns with one name but different types make a table differ from itself, because the name map keeps the last |
| Schema.CommonColumnsSpec | backend/pkg/db/sqlite/sqlite.go:901-910 | the common columns are exactly the target names also present in the current table |
| Schema.CommonColumns | backend/pkg/db/sqlite/sqlite.go:902-910 | no more names than new columns, and every name is a column of both schemas |
| Schema.FindCommonColumns | backend/pkg/db/sqlite/sqlite.go:901-910 | the nested loop computes `CommonColumns` |
| Schema.MaxSequence | backend/pkg/db/sqlite/sqlite.go:299-315 | the largest sequence number is never negative |
| Schema.ScanSequence | backend/pkg/db/sqlite/sqlite.go:311 | `Sscanf("%d_")` skips leading blanks other than a newline, and any number it reads lies in the 64-bit range |
| Schema.ScanNumber | backend/pkg/db/sqlite/sqlite.go:311 | the `%d_` conversion reads only numbers in the 64-bit range |
| Schema.Successor64 | backend/pkg/db/sqlite/sqlite.go:317 | `maxSeq + 1` on a 64-bit int: one more, except that the largest value wraps to the smallest |
| Schema.ScanRejectsNewline | backend/pkg/db/sqlite/sqlite.go:311 | a newline before the number makes the scan fail |
| Schema.ScanLeadingBlankExample | backend/pkg/db/sqlite/sqlite.go:311 | `" 7_update.sql"` scans as 7 |
| Schema.ScanOutOfRange | backend/pkg/db/sqlite/sqlite.go:311 | digits past the 64-bit range followed by `_` are a scan error |
| Schema.ScanOutOfRangeExample | backend/pkg/db/sqlite/sqlite.go:311 | `"99999999999999999999_x.sql"` is a scan error, not a huge sequence |
| Schema.MaxSequenceSnoc | backend/pkg/db/sqlite/sqlite.go:299-315 | one more entry raises the maximum to its sequence when that is larger, and an unnumbered entry changes nothing |
| Schema.NextMigrationSequence | backend/pkg/db/sqlite/sqlite.go:290-318 | a missing directory gives 1, an unreadable one an error, otherwise the 64-bit successor of the largest sequence `Sscanf("%d_")` reads from a file name of at least six characters |
| Schema.MaxSequenceBound | backend/pkg/db/sqlite/sqlite.go:299-315 | every numbered file's sequence is at most the maximum |
| Schema.MigrationFileName | backend/pkg/db/sqlite/sqlite.go:834-838 | the name ends in `.sql`, and for a 64-bit sequence it counts as numbered and scans back to the sequence |
| Schema.NextAfterWrite | backend/pkg/db/sqlite/sqlite.go:290-318 | after writing the file for the next sequence, the next sequence is one more again |
| Schema.UnderscoredNoUpper | backend/pkg/db/sqlite/sqlite.go:594-603 | a name without upper-case letters gains no underscores |
| Schema.KeyFromBody | backend/pkg/db/sqlite/sqlite.go:350-358 | the corrected scan of `pk(body)` reads the comma-separated parts of the body |
| Schema.DigitRun | backend/pkg/db/sqlite/sqlite.go:299-315 | the leading digit run of a file name holds only digits and stops at the first non-digit |
| Schema.ScanDigits | backend/pkg/db/sqlite/sqlite.go:299-315 | a name of digits followed by `_` scans to the decimal value of those digits |
| Schema.ColumnDefs | backend/pkg/db/sqlite/sqlite.go:504-535 | one column definition per column, in order |
| GroupRepository.FirstMember | backend/internal/group/repository.go:483-526 | the row of the pair when there is one, and `None` exactly when no row of the pair exists |
| GroupRepository.MemberRole | backend/internal/group/repository.go:763-780 | "" for a non-member; otherwise the role of an accepted row of the pair |
| GroupRepository.WithStatus | backend/internal/group/repository.go:641-643 | every row of the pair gets the status, every other row is unchanged |
| GroupRepository.Without | backend/internal/group/repository.go:719-721 | exactly the rows of other pairs remain |
| GroupRepository.AcceptedAfterAppend | backend/internal/group/repository.go:441-480 | a new row adds its group to its user's accepted groups exactly when it is accepted |
| GroupRepository.AcceptedAfterWithout | backend/internal/group/repository.go:719-721 | deleting a pair's rows removes that group from the user's accepted groups only |
| GroupRepository.AcceptedByFirst | backend/internal/group/repository.go:630-672 | with uniform statuses, a user is accepted in a group exactly when the pair's first row is accepted |
| GroupRepository.AcceptedAfterWithStatus | backend/internal/group/repository.go:641-643 | a status update moves exactly that group in or out of that user's accepted groups |
| GroupRepository.AcceptedOf | backend/internal/group/repository.go:365 | the listed rows are exactly the group's accepted rows |
| GroupRepository.OutsideGroup | backend/internal/group/repository.go:405-422 | exactly the rows of other groups remain |
| GroupRepository.DecrementedGet | backend/internal/group/repository.go:394-400 | with distinct users, each listed user's `groups_joined` drops by one (never below 0) and no other counter moves |
| GroupRepository.ValidAfterDeleteGroup | backend/internal/group/repository.go:363-403 | deleting a group and decrementing its accepted members once each keeps every `groups_joined` equal to the user's accepted groups |
| GroupRepository.ValidAfterAppend | backend/internal/group/repository.go:441-480 | inserting a row with the pair's status (an accepted one only for a new pair), with the counter step, keeps the invariant |
| GroupRepository.ValidAfterWithStatus | backend/internal/group/repository.go:623-676 | a status update on an existing pair, with its counter step, keeps the invariant |
| GroupRepository.CountsAfterWithStatus | backend/internal/group/repository.go:655-672 | the counter step of a status update matches the change in accepted groups |
| GroupRepository.UniformAfterAppend | backend/internal/group/repository.go:441-480 | appending a row of the pair's status keeps pair statuses uniform |
| GroupRepository.UniformAfterWithStatus | backend/internal/group/repository.go:641-643 | updating a pair to a known status keeps statuses uniform and known |
| GroupRepository.UniformAfterWithout | backend/internal/group/repository.go:719-721 | deleting a pair keeps statuses uniform and known |
| GroupRepository.MaxAbove | backend/internal/group/repository.go:1129-1154 | the result bounds every id and the floor, and is one of them |
| GroupRepository.NextAvailableId | backend/internal/group/repository.go:1129-1154 | the next id is at least 1, above every id of `posts` and `group_posts`, and one more than the largest id (1 when both are empty) |
| GroupRepository.Reversed | backend/internal/group/repository.go:1021-1023 | element `i` of the result is element `n-1-i` of the input |
| GroupRepository.ReversedTwice | backend/internal/group/repository.go:1021-1023 | reversing twice gives back the page |
| GroupRepository.ReversedOrder | backend/internal/group/repository.go:975-1026 | a page fetched newest first comes out oldest first |
| GroupRepository.ReverseInPlace | backend/internal/group/repository.go:1021-1023 | the swap loop leaves the array reversed |
| GroupRepository.GroupStore.constructor | backend/internal/group/repository.go:58-60 | an empty store satisfies the invariant |
| GroupRepository.GroupStore.UpdateUserGroupCount | backend/internal/group/repository.go:1057-1126 | `groups_joined` steps up by one, or down by one clamped at 0 (a missing row starts at 1 or 0), and the new value is returned |
| GroupRepository.GroupStore.AddMember | backend/internal/group/repository.go:441-480 | the row is inserted, and only an accepted row increments its user's `groups_joined`; the invariant is kept for a row consistent with its pair |
| GroupRepository.GroupStore.UpdateMemberStatus | backend/internal/group/repository.go:623-676 | a missing member fails and changes nothing; otherwise every row of the pair gets the status, with an increment on non-accepted→accepted, a decrement on accepted→non-accepted, nothing otherwise |
| GroupRepository.GroupStore.UpdateMemberRole | backend/internal/group/repository.go:679-698 | every row of the pair gets the role and nothing else changes |
| GroupRepository.GroupStore.RemoveMember | backend/internal/group/repository.go:701-743 | a missing member fails and changes nothing; otherwise the pair's rows go and an accepted member counts one group less; the invariant is kept |
| GroupRepository.GroupStore.DeleteGroup | backend/internal/group/repository.go:363-403 | the group row and all its member rows go and each accepted row's user counts one group less; with one accepted row per member the invariant is kept |
| GroupRepository.GroupStore.DecrementAll | backend/internal/group/repository.go:394-400 | the loop applies one clamped decrement per listed row |
| GroupRepository.GroupStore.CreateGroup | backend/internal/group/repository.go:63-117 | the group row is stored and the creator is inserted as an accepted admin, which increments their `groups_joined` |
| GroupRepository.GroupStore.DeleteGroupPost | backend/internal/group/repository.go:937-944 | only that group post is removed |
| GroupRepository.GroupStore.AddChatMessage | backend/internal/group/repository.go:947-972 | the message is appended under the next autoincrement id |
| GroupRepository.GroupStore.CreateGroupPost | backend/internal/group/repository.go:783-815 | the post is stored under its id and nothing else changes |
| GroupRepository.AcceptedWithStatusSub | backend/internal/group/repository.go:641-643 | after a status update a user's accepted groups lie within the old ones, with the updated group moved in or out |
| GroupRepository.AcceptedWithStatusSup | backend/internal/group/repository.go:641-643 | for an existing pair, the old accepted groups, with the updated group moved in or out, are all still accepted after the update |
| GroupRepository.CountsAfterAppend | backend/internal/group/repository.go:441-480 | inserting a row, and counting one more group for an accepted row of a new pair, keeps every counter equal to the user's accepted groups |
| GroupRepository.UniformOutsideGroup | backend/internal/group/repository.go:363-403 | removing a group's rows keeps one status per pair and only known statuses |
| GroupRepository.AcceptedOutsideGroup | backend/internal/group/repository.go:363-403 | removing a group's rows removes exactly that group from every user's accepted groups |
| GroupRepository.CountAfterDeleteGroup | backend/internal/group/repository.go:363-403 | after the deletion and the decrements, each user's counter equals the number of accepted groups left |
| GroupService.InviteRefusal | backend/internal/group/service.go:252-274 | no refusal exactly when the inviter is an accepted member and the invitee has no row, or a first row that is neither accepted nor an open invitation |
| GroupService.JoinRefusal | backend/internal/group/service.go:319-327 | with known statuses, a join is refused exactly when the user already has a row in the group |
| GroupService.InvitationRefusal | backend/internal/group/service.go:402-414 | no refusal exactly when the user's first row is pending with an inviter |
| GroupService.JoinRequestRefusal | backend/internal/group/service.go:467-491 | no refusal exactly when the actor's role is admin and the target's first row is pending without an inviter |
| GroupService.GetGroup | backend/internal/group/service.go:126-156 | a missing group fails; a private group is denied exactly to a caller who is neither an accepted member nor the creator; the view carries the membership flag and, for a non-member with a row, that row's status |
| GroupService.MembersOf | backend/internal/group/repository.go:529-557 | the listed rows are exactly the group's rows with the requested status (any status for "") |
| GroupService.MembersNewestFirst | backend/internal/group/repository.go:542-554 | `ORDER BY created_at DESC`: a row created after the others heads the list when it matches, and the older rows keep their order behind it |
| GroupService.GetGroupMembers | backend/internal/group/service.go:645-674 | the list is returned exactly to an accepted member, and pending rows only to an admin |
| GroupService.AcceptMakesMember | backend/internal/group/service.go:417 | accepting an existing row makes the user a member |
| GroupService.RemovalLeavesNoRow | backend/internal/group/service.go:390 | after removal the user has no row and is no member |
| GroupService.PendingRowIsNotMembership | backend/internal/group/service.go:336-344 | adding a pending row never changes who is a member |
| GroupService.CreateGroup | backend/internal/group/service.go:73-123 | an empty name fails and changes nothing; otherwise the group is stored and its creator becomes an accepted admin |
| GroupService.InviteToGroup | backend/internal/group/service.go:251-309 | a refusal changes nothing; otherwise a pending "member" row with the inviter is inserted (the call then fails only for a missing group) and the invitee's membership is unchanged |
| GroupService.SamePairPending | backend/internal/group/service.go:262-283 | a pair whose first row is not accepted has only pending rows, so a new pending row keeps statuses uniform |
| GroupService.JoinGroup | backend/internal/group/service.go:312-365 | any existing row refuses; a missing group fails; otherwise a pending row without an inviter is inserted, even for a public group, so the user is not yet a member |
| GroupService.LeaveGroup | backend/internal/group/service.go:368-398 | succeeds exactly for an accepted member who is not the creator, removing the pair's rows |
| GroupService.AcceptInvitation | backend/internal/group/service.go:401-431 | a refusal changes nothing; otherwise the pair is set to accepted and the user is a member |
| GroupService.RejectInvitation | backend/internal/group/service.go:434-464 | a refusal changes nothing; otherwise the pair's rows are deleted |
| GroupService.AcceptJoinRequest | backend/internal/group/service.go:467-508 | a refusal changes nothing; otherwise the pair is set to accepted and the user is a member |
| GroupService.RejectJoinRequest | backend/internal/group/service.go:511-551 | a refusal changes nothing; otherwise the pair's rows are deleted |
| GroupService.UpdateMemberRole | backend/internal/group/service.go:554-599 | succeeds exactly for an admin actor, an accepted target who is not the creator and one of the three roles; then the pair's rows get the role |
| GroupService.RemoveMember | backend/internal/group/service.go:602-642 | succeeds exactly for an admin actor and an accepted target who is not the creator; then the pair's rows go |
| GroupService.DeleteGroup | backend/internal/group/service.go:228-248 | only the creator of an existing group deletes it: the group and its rows go and each accepted member counts one group less |
| GroupService.CreateGroupPost | backend/internal/group/service.go:677-737 | members only; the post is stored under the next id shared with `posts`, which is fresh when the given ids cover the table |
| GroupService.GetGroupPosts | backend/internal/group/service.go:740-772 | members only; every post of the page is paired with its author, and a missing author fails the call |
| GroupService.DeleteGroupPost | backend/internal/group/service.go:775-804 | a missing post fails; otherwise it is deleted exactly when the caller is its author or an accepted admin or moderator of its group |
| GroupService.SendChatMessage | backend/internal/group/service.go:807-846 | a message is stored exactly for an accepted member with non-empty content |
| GroupService.GetGroupChatMessages | backend/internal/group/service.go:849-867 | members only; the page comes back reversed, oldest first |
| GroupService.InviteOverJoinRequest | backend/internal/group/service.go:262-274 | an invitation over a pending join request is allowed and adds a second row; accepting then fails because the first row is the join request |
| FollowRepository.FollowersCount | backend/internal/follow/repository.go:332-346 | the count is positive exactly when some row follows `u` |
| FollowRepository.FollowingCount | backend/internal/follow/repository.go:349-363 | the count is positive exactly when `u` follows someone |
| FollowRepository.LinkCount | backend/internal/follow/repository.go:249-263 | the count of a relation is positive exactly when it is stored |
| FollowRepository.Unlinked | backend/internal/follow/repository.go:189-193 | exactly the rows other than the deleted relation remain |
| FollowRepository.MutualCount | backend/internal/follow/repository.go:419-434 | the join count is positive exactly when someone follows both users |
| FollowRepository.MutualCountIsCommonFollowers | backend/internal/follow/repository.go:386-434 | without duplicate rows, the join counts each common follower once: the count equals the size of the mutual-follower set |
| FollowRepository.LinkCountDistinct | backend/internal/follow/repository.go:249-263 | in a table without duplicates a relation is stored at most once |
| FollowRepository.FirstRequest | backend/internal/follow/repository.go:61-85 | the first request row of the pair, and `None` exactly when the pair has none |
| FollowRepository.WithRequestStatus | backend/internal/follow/repository.go:88-99 | every request row of the pair gets the status, the others are unchanged |
| FollowRepository.IsFollowing | backend/internal/follow/repository.go:249-263 | true exactly when the (follower, following) row exists |
| FollowRepository.PendingFor | backend/internal/follow/repository.go:102-134 | exactly the pending requests addressed to the user |
| FollowRepository.PendingNewestFirst | backend/internal/follow/repository.go:102-107 | `ORDER BY created_at DESC`: a request made after the others heads the list when it is pending for the user |
| FollowRepository.UsersNotFollowed | backend/internal/follow/repository.go:436-470 | exactly the users other than `u` whom `u` neither follows nor has a pending request to |
| FollowRepository.UsersNotFollowedNewestFirst | backend/internal/follow/repository.go:436-452 | `ORDER BY created_at DESC`: an account created after the others heads the suggestions when it qualifies |
| FollowRepository.SteppedCounters | backend/internal/follow/repository.go:161-170 | following or unfollowing moves the followed user's `followers_count` and the follower's `following_count` by one (clamped at 0), nothing else |
| FollowRepository.ValidAfterLink | backend/internal/follow/repository.go:136-174 | inserting a relation with its two counter steps keeps the counters equal to the row counts, and a new relation keeps rows distinct |
| FollowRepository.CountsAfterUnlink | backend/internal/follow/repository.go:189-193 | removing a relation stored once lowers exactly the two counts it contributed to, by one |
| FollowRepository.UnlinkedAbsent | backend/internal/follow/repository.go:189-193 | deleting a relation that is not stored changes no row |
| FollowRepository.DistinctAfterUnlink | backend/internal/follow/repository.go:189-193 | deleting rows keeps the rest distinct |
| FollowRepository.ValidAfterUnlink | backend/internal/follow/repository.go:176-212 | deleting a stored relation with its counter steps keeps the invariant |
| FollowRepository.FollowStore.constructor | backend/internal/follow/repository.go:43-45 | an empty store satisfies the invariant |
| FollowRepository.FollowStore.CreateFollowRequest | backend/internal/follow/repository.go:48-58 | a pending request row is appended and nothing else changes |
| FollowRepository.FollowStore.UpdateFollowRequestStatus | backend/internal/follow/repository.go:88-99 | the pair's request rows get the status and nothing else changes |
| FollowRepository.FollowStore.CreateFollower | backend/internal/follow/repository.go:136-174 | the row is inserted and both counters step up; counters keep tracking the rows, and a new relation keeps the invariant |
| FollowRepository.FollowStore.DeleteFollower | backend/internal/follow/repository.go:176-212 | every matching row goes and each counter steps down once; deleting a stored relation keeps the invariant |
| FollowRepository.FollowStore.SetPrivacy | backend/internal/profile/repository.go:83-86 | the user's `is_public` becomes the negation of `isPrivate`, nothing else changes |
| FollowService.FirstRequestAfterUpdate | backend/internal/follow/service.go:139-142 | after a status update the pair's request reads back with the new status and nothing else changed |
| FollowService.FirstRequestAfterAppend | backend/internal/follow/service.go:146-150 | a pair with no request that gets one created reads back that request |
| FollowService.FollowUser | backend/internal/follow/service.go:74-157 | self-follow and an existing relation fail with their messages; a public target gains the relation and `true`; a private target gets a pending request (a fresh one, or an old non-pending one reset) and `false`; an already-pending request fails; counters change only on the `true` path; the store stays consistent |
| FollowService.UnfollowUser | backend/internal/follow/service.go:160-188 | succeeds exactly for another user that is followed; then the relation is gone and the counters follow; otherwise nothing changes and the message says why |
| FollowService.RequestRefusal | backend/internal/follow/service.go:196-207 | no refusal exactly when the pair has a pending request; otherwise "follow request not found" or "follow request is not pending" |
| FollowService.AcceptFollowRequest | backend/internal/follow/service.go:191-226 | succeeds exactly for non-empty ids with a pending request; then the request is accepted and a relation row is appended even when one exists; failures change nothing |
| FollowService.AcceptFollowRequestOnce | backend/internal/follow/service.go:191-226 | the same outcomes, but a relation already present is not inserted again, so the store stays consistent |
| FollowService.DeclineFollowRequest | backend/internal/follow/service.go:229-246 | succeeds exactly for a pending request, which becomes declined; no relation or counter changes; failures give the refusal message |
| FollowService.GetSuggestedFriends | backend/internal/follow/service.go:361-404 | one suggestion per user not followed (in order), each with its mutual-follower count |
| FollowService.AcceptWhileFollowingDrifts | backend/internal/follow/service.go:210-220 | accepting a request while already following stores the relation twice, and after an unfollow the followers counter is one above the stored rows |
| PostRepository.FindPost | backend/internal/post/repository.go:96-103 | a row found in one table is stored under the id; none exactly when no row of the table has it |
| PostRepository.GetPostById | backend/internal/post/repository.go:93-139 | the `posts` row in preference to the `group_posts` row, which is read as public; none exactly when neither table holds the id |
| PostRepository.NextPostId | backend/internal/post/repository.go:854-878 | the id is free in both `posts` and `group_posts`, at least 1, and 1 or one past a stored id |
| PostRepository.ViewerIds | backend/internal/post/repository.go:280-303 | exactly the users listed as viewers of the post |
| PostRepository.FollowerIds | backend/internal/post/repository.go:699-720 | exactly the users following `u` |
| PostRepository.WithoutPost | backend/internal/post/repository.go:256-260 | exactly the posts with another id remain, and ids stay unique |
| PostRepository.Updated | backend/internal/post/repository.go:234-253 | the row with the id is rewritten, every other row is unchanged |
| PostRepository.FindUnique | backend/internal/post/repository.go:93-139 | with unique ids, looking up a stored post's id finds that post |
| PostRepository.FindUpdated | backend/internal/post/repository.go:234-253 | after an id-preserving rewrite, the rewritten id reads the new row and every other id reads as before |
| PostRepository.UpdatedKeepsIds | backend/internal/post/repository.go:234-253 | an id-preserving rewrite keeps ids unique and the set of stored ids |
| PostRepository.CanViewPost | backend/internal/post/repository.go:305-345 | on the row `GetPostByID` finds (a group post read as public): a missing post gives "post not found"; `true` exactly for the author, a public post, a follower of an almost-private post's author or a listed viewer of a private post; an unknown privacy is an error for everyone but the author |
| PostRepository.GroupPostOpen | backend/internal/post/repository.go:93-106 | a group post that no `posts` row shadows is visible to every user |
| PostRepository.Feed | backend/internal/post/repository.go:524-536 | exactly the rows the user may see by the feed's conditions |
| PostRepository.PublicRows | backend/internal/post/repository.go:190-200 | exactly the public rows |
| PostRepository.Page | backend/internal/post/repository.go:535-536 | `LIMIT`/`OFFSET`: at most `limit` rows, read from `offset` on, none past the end |
| PostRepository.PageWithin | backend/internal/post/repository.go:535-536 | a page of the newest-first order holds only stored rows |
| PostRepository.LikeCount | backend/internal/post/repository.go:511-522 | a like count never exceeds the number of like rows |
| PostRepository.Unliked | backend/internal/post/repository.go:458-472 | exactly the like rows other than the deleted one remain |
| PostRepository.LikesNotOf | backend/internal/post/repository.go:256-260 | exactly the likes of other posts remain |
| PostRepository.ViewersNotOf | backend/internal/post/repository.go:256-260 | exactly the viewer rows of other posts remain |
| PostRepository.LikeCountZero | backend/internal/post/repository.go:511-522 | a post without like rows counts zero likes |
| PostRepository.CountAfterUnlike | backend/internal/post/repository.go:458-497 | deleting a stored like lowers its post's count by one and leaves other posts' counts |
| PostRepository.UnlikedAbsent | backend/internal/post/repository.go:458-472 | deleting a like that is not stored changes nothing |
| PostRepository.DistinctAfterUnlike | backend/internal/post/repository.go:458-472 | deleting a like keeps the like rows distinct |
| PostRepository.DistinctSnoc | backend/internal/post/repository.go:424-440 | adding a new like keeps the like rows distinct |
| PostRepository.CountNotOf | backend/internal/post/repository.go:256-260 | dropping one post's likes leaves every other post's count |
| PostRepository.DistinctNotOf | backend/internal/post/repository.go:256-260 | dropping one post's likes keeps the rows distinct |
| PostRepository.ValidAfterLike | backend/internal/post/repository.go:424-456 | a new like of a stored post, with its `likes_count` raised, keeps the counts equal to the like rows |
| PostRepository.CountSnoc | backend/internal/post/repository.go:424-440 | a new like raises exactly its post's count by one |
| PostRepository.ValidAfterUnlike | backend/internal/post/repository.go:458-497 | deleting a stored like, with its `likes_count` lowered, keeps the counts equal to the like rows |
| PostRepository.UnlikeRow | backend/internal/post/repository.go:474-490 | the decremented row's count matches the remaining like rows |
| PostRepository.ValidAfterCreate | backend/internal/post/repository.go:60-91 | a new post with a fresh id and no likes keeps the store consistent |
| PostRepository.UniqueSnoc | backend/internal/post/repository.go:60-91 | a post with a fresh id keeps ids unique |
| PostRepository.FindAppend | backend/internal/post/repository.go:60-91 | appending a post leaves the lookup of a stored id unchanged |
| PostRepository.FreshPostUnseen | backend/internal/post/repository.go:854-878 | in a consistent store an unused id has no viewers, no likes and a zero count |
| PostRepository.LikeUnlikeInverse | backend/internal/post/repository.go:424-497 | liking then unliking restores the like rows and the posts |
| PostRepository.ValidAfterCascade | backend/internal/post/repository.go:256-260 | deleting a post together with its likes and viewers keeps the store consistent |
| PostRepository.ValidAfterEdit | backend/internal/post/repository.go:234-253 | a rewrite that keeps ids and like counts keeps the store consistent |
| PostRepository.CommentCountUpdate | backend/internal/post/repository.go:612-696 | a post in neither table fails with its message; otherwise `posts` is preferred over `group_posts`, that row's count moves by one and the new count is returned |
| PostRepository.CommentCountStored | backend/internal/post/repository.go:612-696 | the returned count is the count stored in the updated row |
| PostRepository.PostStore.constructor | backend/internal/post/repository.go:55-58 | an empty consistent store over the given group posts |
| PostRepository.PostStore.CreatePost | backend/internal/post/repository.go:60-91 | the post is appended under the next free id with zero counts, consistency is kept, nothing else changes |
| PostRepository.PostStore.UpdatePost | backend/internal/post/repository.go:234-253 | content and privacy of the row are replaced, consistency is kept, nothing else changes |
| PostRepository.PostStore.DeletePost | backend/internal/post/repository.go:256-260 | only the post row is deleted; its likes and viewers stay |
| PostRepository.PostStore.DeletePostCascade | backend/internal/post/repository.go:256-260 | the post row goes with its likes and viewers, keeping consistency |
| PostRepository.PostStore.AddPostViewer | backend/internal/post/repository.go:263-271 | a viewer row is appended; consistency is kept for a stored post |
| PostRepository.PostStore.RemovePostViewer | backend/internal/post/repository.go:273-278 | exactly the matching viewer rows go |
| PostRepository.PostStore.LikePost | backend/internal/post/repository.go:424-456 | the like row is appended and the post's `likes_count` rises in both post tables |
| PostRepository.PostStore.UnlikePost | backend/internal/post/repository.go:458-497 | the like row goes and the count falls, never below zero; an absent like changes nothing |
| PostRepository.PostStore.UpdatePostCommentCount | backend/internal/post/repository.go:612-696 | the tables and result are those of `CommentCountUpdate`, consistency is kept |
| PostRepository.PostStore.CreateComment | backend/internal/post/repository.go:348-371 | the comment is appended and nothing else changes |
| PostRepository.PostStore.DeleteComment | backend/internal/post/repository.go:417-422 | exactly the comments with another id remain |
| PostRepository.PostStore.UpdateUserStats | backend/internal/post/repository.go:722-851 | `posts_count` is set to the user's actual post count; other columns move by one, never below zero, a missing row starts at 1 or 0; no other cell changes |
| PostRepository.CommentsWithout | backend/internal/post/repository.go:417-422 | exactly the comments with another id remain |
| PostRepository.PostsOf | backend/internal/post/repository.go:724-730 | the count is zero exactly when the user has no post |
| PostRepository.SetStat | backend/internal/post/repository.go:810-851 | the cell reads the value and every other cell is unchanged |
| PostService.PostAudience | backend/internal/post/service.go:59-92 | a public post goes to everyone, an unknown privacy to nobody; otherwise the listed users are exactly those other than the author who may see the post |
| PostService.CreatePost | backend/internal/post/service.go:136-210 | an invalid privacy fails and changes nothing; otherwise the post is appended under a fresh id with zero counts and the author's `posts_count` equals their stored posts |
| PostService.GetPost | backend/internal/post/service.go:212-236 | the post is returned exactly when it exists and the user may see it; a missing post and a refused view give their messages |
| PostService.UserPostsView | backend/internal/post/service.go:238-270 | exactly the owner's posts the viewer may see |
| PostService.GetUserPosts | backend/internal/post/service.go:238-270 | the loop returns the owner's posts that pass the per-post check |
| PostService.GetPublicPosts | backend/internal/post/service.go:272-288 | the public posts newest first, from the offset (a negative one read as 0) on, as many as the limit allows (10 for a non-positive limit); element `i` is the `(offset+i)`-th newest public post |
| PostService.PublicPostsNegativeOffset | backend/internal/post/service.go:276-278 | a negative offset reads the same page as offset 0 |
| PostService.GetFeedPosts | backend/internal/post/service.go:632-661 | the posts the user may see, newest first, starting `(page-1)*pageSize` posts in (page below 1 read as 1, page size below 1 read as 10), as many as the page size allows; element `i` is the `(offset+i)`-th newest visible post |
| PostService.FeedPageNormalised | backend/internal/post/service.go:634-636 | a page number below 1 reads the first page |
| PostService.FeedPostsOpen | backend/internal/post/service.go:632-661 | every feed post can also be opened by the same user through `GetPost` |
| PostService.FeedFirstPage | backend/internal/post/service.go:632-661 | the first page is the newest visible posts, as many as fit |
| PostService.UpdatePost | backend/internal/post/service.go:290-342 | only the author with a valid privacy succeeds; the three failures give their messages and change nothing; the stored row then reads the new content and privacy |
| PostService.DeleteRefusal | backend/internal/post/service.go:344-359 | no refusal exactly when the post exists and belongs to the user |
| PostService.DeletePost | backend/internal/post/service.go:344-383 | the author's post row is deleted, likes and viewers stay; refusals change nothing |
| PostService.DeletePostCascading | backend/internal/post/service.go:344-383 | as `DeletePost`, but the post's likes and viewers go too and the store stays consistent |
| PostService.DeletedPostViewerSeesNextPost | backend/internal/post/repository.go:256-260 | after a private post is deleted its viewer row survives, the id is reused and the old viewer can see the new private post |
| PostService.DeletePostOrphansViewers | backend/internal/post/repository.go:256-260 | deleting a post that has a viewer breaks the store's consistency |
| PostService.ViewersRefusal | backend/internal/post/service.go:385-405 | no refusal exactly for the author of a stored private post |
| PostService.SetPostViewers | backend/internal/post/service.go:385-446 | on success the post's viewer set becomes exactly the given ids; other posts' viewers never change; refusals change nothing |
| PostService.AddViewers | backend/internal/post/service.go:425-433 | afterwards the viewers are the old ones plus the given ids |
| PostService.RemoveViewers | backend/internal/post/service.go:435-443 | afterwards the viewers are exactly the given ids |
| PostService.CreateComment | backend/internal/post/service.go:449-497 | only a user who may view the post comments; the comment is appended and the post's count rises; refusals change nothing |
| PostService.CommentsOf | backend/internal/post/repository.go:373-415 | exactly the comments of the post |
| PostService.GetPostComments | backend/internal/post/service.go:499-530 | the post's comments exactly when the user may view it, else the refusal |
| PostService.DeleteComment | backend/internal/post/service.go:532-554 | the comment goes; an unparsable post id fails; otherwise the comment count of the post (or group post) falls and a missing post fails |
| PostService.LikePost | backend/internal/post/service.go:556-616 | only a viewer may like; a first like adds the row and returns `true`, a repeated like removes it and returns `false` |
| PostService.UnlikePost | backend/internal/post/service.go:618-630 | only a viewer may unlike; then the like row is gone |
| EventRepository.FindEvent | backend/internal/event/repository.go:84-110 | a found event is stored under the id; `None` exactly when no stored event has it |
| EventRepository.EventsUpdated | backend/internal/event/repository.go:198-222 | title, description and date of the event with the id are replaced, every other row is unchanged |
| EventRepository.EventsWithout | backend/internal/event/repository.go:224-232 | exactly the events with another id remain |
| EventRepository.UserResponse | backend/internal/event/repository.go:341-374 | a found response is the user's stored response to the event; `None` exactly when there is none |
| EventRepository.Upserted | backend/internal/event/repository.go:234-275 | an existing response is updated in place; otherwise one row is appended |
| EventRepository.UpsertedKeepsOnePerPair | backend/internal/event/repository.go:234-275 | responses stay one per (event, user); the pair reads the new response and every other pair reads as before |
| EventRepository.UserResponseMapped | backend/internal/event/repository.go:376-396 | updating the pair's rows changes only that pair's lookup, to the new response |
| EventRepository.UserResponseAppended | backend/internal/event/repository.go:254-272 | appending a response for a pair with none makes that pair read it and leaves other pairs |
| EventRepository.ResponsesOf | backend/internal/event/repository.go:278-298 | exactly the event's responses, of the given kind unless the kind is empty |
| EventRepository.CountOf | backend/internal/event/repository.go:412-432 | a count never exceeds the number of rows |
| EventRepository.ResponseCounts | backend/internal/event/repository.go:412-432 | the counts are the numbers of `going` and `not_going` responses to the event |
| EventRepository.CountIsListed | backend/internal/event/repository.go:412-432 | the `COUNT(*)` of a kind equals the length of the listing of that kind |
| EventRepository.CountsCoverResponses | backend/internal/event/repository.go:412-432 | when every response is valid, the two counts add up to all responses to the event |
| EventRepository.MemberRole | backend/internal/event/repository.go:513-527 | the accepted member's role, and "user is not a member of this group" exactly for a non-member |
| EventRepository.InsertByDate | backend/internal/event/repository.go:139 | inserting into a date-ordered list keeps it ordered and adds exactly the event |
| EventRepository.InsertedAbove | backend/internal/event/repository.go:139 | every event placed after a smaller head date is no earlier than the head |
| EventRepository.SortByDate | backend/internal/event/repository.go:139 | `ORDER BY event_date ASC`: ordered by date and a permutation of the input |
| EventRepository.EventsOf | backend/internal/event/repository.go:134-140 | exactly the events of the group |
| EventRepository.ViewOf | backend/internal/event/repository.go:122-128 | the event with its `going` and `not_going` counts |
| EventRepository.GetEventByID | backend/internal/event/repository.go:84-131 | a missing event gives the not-found error; otherwise the stored event with its counts |
| EventRepository.GroupEvents | backend/internal/event/repository.go:134-195 | the group's events in date order, each with its counts |
| EventRepository.SortedOfGroup | backend/internal/event/repository.go:134-140 | every listed event is a stored event of the group |
| EventRepository.FindAppended | backend/internal/event/repository.go:49-82 | a new event with a fresh id is found under its id |
| EventRepository.FindUpdatedEvent | backend/internal/event/repository.go:198-222 | after an update the event reads back with the new title, description and date |
| EventRepository.EventStore.constructor | backend/internal/event/repository.go:44-47 | an empty consistent store over the given group members |
| EventRepository.EventStore.CreateEvent | backend/internal/event/repository.go:49-82 | the event is appended and nothing else changes |
| EventRepository.EventStore.UpdateEvent | backend/internal/event/repository.go:198-222 | the event row is rewritten and nothing else changes |
| EventRepository.EventStore.DeleteEvent | backend/internal/event/repository.go:224-232 | exactly the events with another id remain; responses stay |
| EventRepository.EventStore.AddEventResponse | backend/internal/event/repository.go:234-275 | the response is upserted, the pair then reads it and consistency is kept for a valid response |
| EventService.ManageRefusal | backend/internal/event/service.go:204-215 | no refusal exactly for the creator or an admin of the event's group; a non-member gets "user is not a member of this group", a plain member the creator-or-admin message for the verb |
| EventService.Recipients | backend/internal/event/service.go:97-122 | exactly the accepted group members other than the creator are notified |
| EventService.AnswerOf | backend/internal/event/service.go:150-158 | the user's stored response to the event, or "" when there is none |
| EventService.GetEvent | backend/internal/event/service.go:133-162 | a missing event and a non-member give their errors; otherwise the event with its counts and the caller's own answer |
| EventService.CountsCoverAnswers | backend/internal/event/service.go:133-162 | with valid responses only, going plus not-going is every response to the event |
| EventService.AnswerShows | backend/internal/event/service.go:276-312 | after a member answers, `GetEvent` shows that answer to them |
| EventService.GetGroupEvents | backend/internal/event/service.go:164-195 | members get the group's events in date order, with counts and their own answers; others get the membership error |
| EventService.RespondToEvent | backend/internal/event/service.go:276-312 | an invalid answer, a missing event and a non-member fail with their messages and change nothing; otherwise the answer is upserted and reads back |
| EventService.CreateEvent | backend/internal/event/service.go:55-130 | a non-member fails and nothing changes; otherwise the event is appended, the other members are notified and the creator's answer is recorded (an invalid answer fails after the event is stored) |
| EventService.UpdateEvent | backend/internal/event/service.go:197-245 | a missing event and a refused caller fail and change nothing; otherwise the event is rewritten and returned with its counts |
| EventService.DeleteEvent | backend/internal/event/service.go:247-274 | a missing event and a refused caller fail; otherwise the event is gone |
| EventService.GetEventResponses | backend/internal/event/service.go:314-338 | a missing event and a non-member fail; otherwise exactly the event's responses of the kind (all when the kind is empty) |
| ChatRepository.CanSendMessage | backend/internal/chat/repository.go:299-314 | allowed exactly when a follow row exists in either direction or the receiver's profile is public |
| ChatRepository.CanSendSwapped | backend/internal/chat/repository.go:299-314 | the permission differs between the two directions only when neither follows the other and exactly one of them is public |
| ChatRepository.Conversation | backend/internal/chat/repository.go:57-62 | exactly the messages between the two users, keeping the stored order |
| ChatRepository.Window | backend/internal/chat/repository.go:62-63 | `LIMIT`/`OFFSET`: the rows from the (clamped) offset, as many as the limit allows, a negative limit meaning no limit |
| ChatRepository.MessagesBetween | backend/internal/chat/repository.go:57-115 | a page of the conversation's newest messages, only messages between the two users, oldest first |
| ChatRepository.PageOfConversation | backend/internal/chat/repository.go:108-112 | reversing a newest-first page gives conversation messages in ascending order |
| ChatRepository.UnreadFrom | backend/internal/chat/repository.go:118-146 | the unread count never exceeds the number of messages |
| ChatRepository.NoUnreadFrom | backend/internal/chat/repository.go:118-146 | the count is zero exactly when every message from the sender to the user is read |
| ChatRepository.MarkedRead | backend/internal/chat/repository.go:148-158 | exactly the messages from the sender to the receiver become read |
| ChatRepository.MarkedReadCounts | backend/internal/chat/repository.go:148-158 | after marking, the pair's unread count is zero and every other pair's count is unchanged |
| ChatRepository.Matching | backend/internal/chat/repository.go:339-366 | exactly the messages in scope (the conversation, or all of the user's messages) whose content contains the query |
| ChatRepository.SearchMessages | backend/internal/chat/repository.go:339-411 | only matching messages, at most `limit` of them; a negative limit keeps them all |
| ChatRepository.NumberedAscending | backend/internal/chat/repository.go:37-54 | messages numbered in insertion order are ascending |
| ChatRepository.ChatStore.constructor | backend/internal/chat/repository.go:32-35 | an empty consistent store over the given follow relations and visibility flags |
| ChatRepository.ChatStore.SaveMessage | backend/internal/chat/repository.go:37-54 | the message is appended under the next row id, which is returned |
| ChatRepository.ChatStore.GetMessagesBetweenUsers | backend/internal/chat/repository.go:57-115 | the loop returns `MessagesBetween` |
| ChatRepository.ChatStore.GetUnreadMessagesCount | backend/internal/chat/repository.go:118-146 | the map holds exactly the senders with unread messages to the user, each with its count |
| ChatRepository.ChatStore.MarkMessagesAsRead | backend/internal/chat/repository.go:148-158 | the pair's messages are read, its unread count is zero, nothing else changes |
| ChatService.UnreadAfterAppend | backend/internal/chat/service.go:48-89 | a new unread message raises exactly its pair's unread count by one |
| ChatService.SendMessage | backend/internal/chat/service.go:48-89 | sending is allowed exactly when `CanSendMessage` holds; then the unread message is stored under the next id and the pair's unread count rises; otherwise the refusal and nothing stored |
| ChatService.GetMessages | backend/internal/chat/service.go:91-110 | allowed exactly when `CanSendMessage` holds; then a page of the conversation |
| ChatService.MarkAsRead | backend/internal/chat/service.go:112-133 | allowed when the receiver may message the sender; then the pair's messages are read and its unread count is zero |
| ChatService.SendTypingIndicator | backend/internal/chat/service.go:140-155 | allowed exactly when `CanSendMessage` holds, else the refusal |
| Filestore.AllowedIsMedia | backend/pkg/filestore/filestore.go:78-90 | every accepted content type is an image or video type, and acceptance ignores letter case |
| Filestore.MediaPrefix | backend/pkg/filestore/filestore.go:79-88 | each listed type starts with "image/" or "video/" |
| Filestore.Ext | backend/pkg/filestore/filestore.go:43 | `filepath.Ext`: empty, or a dot-led suffix of the name with no further dot or separator |
| Filestore.ExtBefore | backend/pkg/filestore/filestore.go:43 | the scan from the end finds the last dot after the last separator |
| Filestore.ExtOfSuffix | backend/pkg/filestore/filestore.go:43-47 | a stored name ending in the upload's extension has that extension |
| Filestore.ExtScan | backend/pkg/filestore/filestore.go:43 | a dot followed only by plain characters starts the extension |
| Filestore.SaveFile | backend/pkg/filestore/filestore.go:27-76 | an unaccepted type fails with "unsupported file type: ..."; otherwise the returned path is the subdirectory (when given), the id, the time stamp and the original extension |
| Filestore.SavedKeepsExtension | backend/pkg/filestore/filestore.go:43-75 | a saved file keeps the upload's extension |
| ProfileRepository.UserUpdated | backend/internal/profile/repository.go:62-98 | `updated_at` is set; nickname, about-me and avatar take the non-empty form strings; `is_public` becomes the negated `isPrivate` flag when it is a boolean; the rest is kept |
| ProfileRepository.UserUpdatedUpTo | backend/internal/profile/repository.go:68-86 | after all four optional fields the partial update is the whole update |
| ProfileRepository.ApplyUserSnoc | backend/internal/profile/repository.go:92-93 | executing one more `SET` assignment applies it after the earlier ones |
| ProfileRepository.Pick | backend/internal/profile/repository.go:124-139 | `is_private` is taken only as a boolean; other columns only as a non-empty string |
| ProfileRepository.ColumnsDistinct | backend/internal/profile/repository.go:104-120 | no two form fields map to the same column |
| ProfileRepository.ApplyProfileSnoc | backend/internal/profile/repository.go:147-148 | executing one more `SET` assignment applies it after the earlier ones |
| ProfileRepository.ApplyProfileCons | backend/internal/profile/repository.go:147-148 | the first assignment is applied before the rest |
| ProfileRepository.PicksStep | backend/internal/profile/repository.go:123-140 | one more mapping applies its pick, if any, on top of the earlier ones |
| ProfileRepository.PicksKeepTime | backend/internal/profile/repository.go:123-140 | the picks never touch `updated_at` |
| ProfileRepository.PicksKeepText | backend/internal/profile/repository.go:123-140 | a column no mapping names keeps its value |
| ProfileRepository.PicksKeepFlag | backend/internal/profile/repository.go:123-140 | `is_private` keeps its value when no mapping names it |
| ProfileRepository.PicksSetText | backend/internal/profile/repository.go:134-138 | each mapped text column takes the non-empty form string, else keeps its value |
| ProfileRepository.PicksSetFlag | backend/internal/profile/repository.go:126-131 | `is_private` takes a boolean form value, else keeps its value |
| ProfileRepository.PicksEffect | backend/internal/profile/repository.go:100-152 | the profile update sets `updated_at` and exactly the supplied columns, whatever order the mappings are visited in |
| ProfileRepository.ProfileStore.constructor | backend/internal/profile/repository.go:25-29 | a store over the given users, profiles and follow relations |
| ProfileRepository.ProfileStore.IsUserProfilePublic | backend/internal/profile/repository.go:31-42 | a missing user gives "user not found"; otherwise the stored `is_public` |
| ProfileRepository.ProfileStore.UpdateUserProfile | backend/internal/profile/repository.go:54-155 | a non-empty form touching a user column rewrites the user row as `UserUpdated`; any pick rewrites the profile row as described; otherwise rows are unchanged |
| ProfileRepository.ProfileStore.UserAssignments | backend/internal/profile/repository.go:64-91 | the assignments built execute to `UserUpdated`, and there is more than `updated_at` exactly when the form touches a user column |
| ProfileRepository.ProfileStore.ProfileAssignments | backend/internal/profile/repository.go:101-140 | the assignments are `updated_at` followed by the picks of the mappings in order |
| ProfileService.ValidateProfileViewRequest | backend/internal/profile/service.go:141-157 | the owner may always view; a missing target gives the wrapped "user not found"; otherwise the view is allowed exactly for a public target or a follower |
| ProfileService.PublicFlags | backend/internal/profile/repository.go:31-42 | the visibility flag of every stored user, and only of those |
| ProfileService.ViewableIsReachable | backend/internal/profile/service.go:141-157 | whoever may view another user's profile may also message them |
| ProfileService.GetProfileByUserID | backend/internal/profile/service.go:97-102 | an empty id gives "user ID is required", an unknown user "user profile not found"; otherwise the user's row and, when stored, the profile row |
| ProfileService.UpdateProfile | backend/internal/profile/service.go:73-79 | only an empty id fails, changing nothing; otherwise the user and profile rows read back as the repository update describes; no user is added or removed |
| ProfileService.ImagePath | backend/internal/profile/service.go:113-138 | the path is the image-type directory, then `<user>_<type>_<unix>`, ending in the upload's extension |
| ProfileService.ImageKeepsExtension | backend/internal/profile/service.go:114-115 | the stored image keeps the upload's extension |
| ProfileService.SaveImage | backend/internal/profile/service.go:81-95 | no file gives "" (and no error); otherwise the `saveImage` path, under the image-type directory (`avatars` for `SaveProfileImage`, `banners` for `SaveBannerImage`) |
| ProfileService.AvatarsAndBannersApart | backend/internal/profile/service.go:81-95 | an avatar path never equals a banner path |
| SessionManager.SessionsOf | backend/pkg/session/repository.go:84-114 | exactly the session ids stored for the user |
| SessionManager.WithoutUser | backend/pkg/session/repository.go:70-75 | exactly the other users' sessions remain, unchanged, and the user has none |
| SessionManager.SessionManager.constructor | backend/pkg/session/manager.go:24-34 | an empty session table with the given cookie name and lifetime |
| SessionManager.SessionManager.CreateSession | backend/pkg/session/manager.go:36-65 | the user's old sessions are deleted and one new session expiring after the lifetime is the user's only one; other users keep theirs; the cookie carries the id |
| SessionManager.SessionManager.GetUserFromSession | backend/pkg/session/manager.go:68-86 | no cookie, an unknown id and an expired session fail with their messages (an expired one is deleted); otherwise the session's user, with nothing changed |
| SessionManager.SessionManager.ClearSession | backend/pkg/session/manager.go:89-113 | the cookie's session, if any, is deleted and an expired empty cookie is returned |
| SessionManager.SessionManager.ClearAllUserSessions | backend/pkg/session/manager.go:116-118 | the user has no session left and other users keep theirs |
| Notifications.Copied | backend/internal/notifcations/service.go:71-84 | a valid nullable value is copied; an invalid one stays the zero value |
| Notifications.NewRow | backend/internal/notifcations/service.go:64-84 | the stored row has the user, type and message, is unread, and copies only valid sender and target ids |
| Notifications.ForUser | backend/internal/notifcations/repository.go:59-66 | exactly the user's notifications |
| Notifications.Page | backend/internal/notifcations/repository.go:59-101 | at most `limit` of the user's notifications, newest first |
| Notifications.WithUser | backend/internal/notifcations/service.go:108-125 | the notification with empty sender fields when it has no sender, else the sender's name and avatar |
| Notifications.Enriched | backend/internal/notifcations/service.go:106-130 | the enriched list is no longer than the page |
| Notifications.EnrichedRows | backend/internal/notifcations/service.go:106-130 | exactly the notifications whose sender can be looked up are kept, in order; nothing is dropped when all resolve |
| Notifications.NotificationService.Enrich | backend/internal/notifcations/service.go:106-130 | the loop computes `Enriched` |
| Notifications.MarkedWhere | backend/internal/notifcations/repository.go:103-123 | exactly the rows matched by id (or by user) become read |
| Notifications.DeletedWhere | backend/internal/notifcations/repository.go:125-133 | exactly the rows not matched by id (or by user) remain |
| Notifications.NotificationService.constructor | backend/internal/notifcations/service.go:49-57 | an empty notification table over the given users |
| Notifications.NotificationService.CreateNotification | backend/internal/notifcations/service.go:59-92 | an empty user id fails and changes nothing; otherwise the new row is appended under the next id |
| Notifications.NotificationService.GetNotifications | backend/internal/notifcations/service.go:95-131 | an empty user id fails; otherwise the enriched page, holding only the user's stored notifications |
| Notifications.NotificationService.MarkNotificationAsRead | backend/internal/notifcations/service.go:134-145 | a non-positive id fails; otherwise the row with the id is read |
| Notifications.NotificationService.MarkAllNotificationsAsRead | backend/internal/notifcations/service.go:148-159 | an empty user id fails; otherwise every notification of the user is read |
| Notifications.NotificationService.ClearAllNotifications | backend/internal/notifcations/service.go:162-173 | an empty user id fails; otherwise the user has no notification left and others stay |
| Notifications.NotificationService.DeleteNotification | backend/internal/notifcations/service.go:175-185 | a non-positive id fails; otherwise no row with the id remains |
| ChatClient.FromServer | desktop/renderer/js/chat.js:75-88 | the stored message carries the pushed id, parties, content, time and read flag, and is not temporary |
| ChatClient.ContactOf | desktop/renderer/js/chat.js:71-72 | the conversation is filed under the other party |
| ChatClient.ReplaceTemps | desktop/renderer/js/chat.js:107-111 | every matching temporary copy is replaced by the server message, every other entry is kept |
| ChatClient.TempMatch | desktop/renderer/js/chat.js:99-100 | only a temporary entry can match, and only with the same sender and content |
| ChatClient.Known | desktop/renderer/js/chat.js:97-101 | known exactly when some entry has the message's id or is a matching temporary copy |
| ChatClient.Merged | desktop/renderer/js/chat.js:97-112 | the list grows by at most one, then holds an entry with the message's id, and every entry that is not a matching temporary copy stays in place |
| ChatClient.ReplacedKeepsId | desktop/renderer/js/chat.js:106-111 | replacing the temporary copies of a known message leaves an entry with its id |
| ChatClient.MergedEffect | desktop/renderer/js/chat.js:97-112 | after a merge the server message is listed and no matching temporary copy is left; an unknown message is appended; a known one changes only the matching temporary entries |
| ChatClient.MergedIdempotent | desktop/renderer/js/chat.js:97-112 | delivering the same server message twice gives the same list as once |
| ChatClient.TwoTempsBecomeDuplicates | desktop/renderer/js/chat.js:97-112 | two identical pending sends merged with one echo become two entries with the same server id |
| ChatClient.FirstTemp | desktop/renderer/js/chat.js:98-101 | the first matching temporary entry, or none when there is none |
| ChatClient.MergedOnce | desktop/renderer/js/chat.js:97-112 | the corrected merge grows the list by at most one, changes only a matching temporary copy, and changes at most one entry |
| ChatClient.MergedOnceKeepsIdsDistinct | desktop/renderer/js/chat.js:97-112 | replacing only the first matching temporary copy keeps ids distinct and lists the server message |
| ChatClient.MarkedFrom | desktop/renderer/js/chat.js:290-296 | exactly the unread messages from the sender become read |
| ChatClient.MarkedFromEffect | desktop/renderer/js/chat.js:290-296 | afterwards every message from the sender is read, the others are unchanged, and marking again changes nothing |
| ChatClient.Counted | desktop/renderer/js/chat.js:114-117 | an unread message to the current user raises the sender's counter by one (from 0 when absent); nothing else changes it |
| ChatClient.TypingExpired | desktop/renderer/js/chat.js:165-170 | the timeout deletes the entry only when it still carries the timestamp it was armed with |
| ChatClient.NewerTypingSurvives | desktop/renderer/js/chat.js:159-175 | an older timeout leaves a newer typing entry in place; the newer timeout removes it |
| DesktopChat.FindContact | desktop/renderer/js/chat.js:325 | the first contact with the id, or none when there is none |
| DesktopChat.ContactUpdated | desktop/renderer/js/chat.js:324-335 | the contact row takes the message's content, sender, time and the unread count; other rows and an unknown contact are unchanged |
| DesktopChat.ContactUpdatedOthers | desktop/renderer/js/chat.js:324-335 | rows of other contacts are never changed |
| DesktopChat.ChatService.constructor | desktop/renderer/js/chat.js:4-19 | empty message lists, typing entries, counters and contacts for the current user |
| DesktopChat.ChatService.HandleNewMessage | desktop/renderer/js/chat.js:57-126 | no payload changes nothing; otherwise the message is merged into the other party's list, the unread counter and the contact row follow |
| DesktopChat.ChatService.HandleMessagesRead | desktop/renderer/js/chat.js:128-151 | as the sender, the receiver's list has our messages read; as the receiver, the sender's counter is 0; otherwise nothing changes |
| DesktopChat.ChatService.HandleTypingIndicator | desktop/renderer/js/chat.js:153-178 | the sender's typing entry is the new timestamp |
| DesktopChat.ChatService.TypingTimeout | desktop/renderer/js/chat.js:165-170 | the entry goes only if it still has the armed timestamp |
| DesktopChat.ChatService.LoadMessages | desktop/renderer/js/chat.js:197-215 | on success the contact's list is the loaded one (empty when none); on failure nothing changes and the result is empty |
| DesktopChat.ChatService.SendMessage | desktop/renderer/js/chat.js:217-270 | a temporary copy is shown at once; when the request fails it is removed again and the failure reported |
| DesktopChat.ChatService.MarkMessagesAsRead | desktop/renderer/js/chat.js:272-304 | on success the sender's counter is 0 and their messages are read; on failure nothing changes |
| DesktopChat.WithoutId | desktop/renderer/js/chat.js:256-258 | the filter never lengthens the list |
| DesktopChat.WithoutIdMembers | desktop/renderer/js/chat.js:256-258 | exactly the entries with another id remain |
| DesktopChat.WithoutFreshId | desktop/renderer/js/chat.js:236-258 | removing the just-added temporary copy restores the earlier list |
| DesktopChat.WithoutAbsent | desktop/renderer/js/chat.js:256-258 | filtering an id no entry has changes nothing |
| FrontendChat.LoadMessages | frontend/src/services/chatService.js:29-50 | on success the contact's list is the loaded data and is returned; other contacts are unchanged; on failure the state is unchanged and the result empty |
| FrontendChat.OnPrivateMessage | frontend/src/services/chatService.js:154-231 | no payload changes nothing; otherwise the message is merged into the other party's list and an unread message to the user raises the sender's counter |
| FrontendChat.PrivateMessageFiled | frontend/src/services/chatService.js:189-221 | the pushed message ends up in the other party's list with no matching temporary copy, and other lists are untouched |
| FrontendChat.PrivateMessageRedelivered | frontend/src/services/chatService.js:189-229 | a redelivered push leaves the list as it was but raises the unread counter a second time |
| FrontendChat.OnMessagesRead | frontend/src/services/chatService.js:234-264 | as the sender, the receiver's list has our messages read; as the receiver, the sender's counter is 0; otherwise nothing changes |
| FrontendChat.MessagesReadEffect | frontend/src/services/chatService.js:239-255 | the list keeps its length, our messages in it are read and the other party's messages are unchanged |
| FrontendChat.OnTyping | frontend/src/services/chatService.js:267-277 | the sender's typing entry is the new stamp, other entries are kept, and a 3-second timer is armed with that stamp |
| FrontendChat.OnTimer | frontend/src/services/chatService.js:279-287 | the timer deletes the entry only when it still holds the armed stamp |
| FrontendChat.TypingTimerClears | frontend/src/services/chatService.js:267-288 | a lone typing event clears itself; when a newer one arrives, the older timer leaves it and the newer timer clears it |
| FrontendChat.MarkMessagesAsRead | frontend/src/services/chatService.js:81-125 | on success the sender's counter is 0 and their messages are read; on failure nothing changes; the result is the outcome |
| GroupChat.NewOnly | frontend/src/services/groupChatService.js:39-41 | the filter never lengthens the page |
| GroupChat.NewOnlyMembers | frontend/src/services/groupChatService.js:39-41 | exactly the loaded messages whose id is not already listed are kept |
| GroupChat.NewOnlyOfKnown | frontend/src/services/groupChatService.js:39-41 | a page of already-listed messages adds nothing |
| GroupChat.LoadMessages | frontend/src/services/groupChatService.js:24-51 | on failure nothing changes; no data clears the list; otherwise the old list is kept as a prefix and the data is returned |
| GroupChat.LoadMessagesEffect | frontend/src/services/groupChatService.js:38-43 | the list afterwards holds the old messages plus the new-id messages of the page, and loading the same page again changes nothing |
| GroupChat.FromGroupPush | frontend/src/services/groupChatService.js:100-110 | the stored message carries the push's id, sender, group, content and time, unread and not temporary |
| GroupChat.OnGroupMessage | frontend/src/services/groupChatService.js:89-133 | pushes without payload or for another group change nothing; otherwise the message is merged and another member's message raises the unread counter |
| GroupChat.GroupMessageFiled | frontend/src/services/groupChatService.js:112-128 | the pushed message is listed afterwards, and a redelivery leaves the list as it is |
| GroupChat.AllRead | frontend/src/services/groupChatService.js:143-150 | every message becomes read and nothing else changes |
| GroupChat.OnGroupRead | frontend/src/services/groupChatService.js:136-152 | a read receipt of the current user for this group zeroes the counter and marks every message read; any other changes nothing |
| GroupChat.OnUserJoined | frontend/src/services/groupChatService.js:178-186 | a user of this group not yet listed is appended as online; otherwise nothing changes |
| GroupChat.WithoutUserMembers | frontend/src/services/groupChatService.js:193 | exactly the users with another id remain; an unlisted id changes nothing |
| GroupChat.OnUserLeft | frontend/src/services/groupChatService.js:189-194 | for this group the user is removed from the list; otherwise nothing changes |
| GroupChat.JoinLeave | frontend/src/services/groupChatService.js:178-194 | after a join the user is listed and a repeated join changes nothing; after a leave the user is gone and every other listed user remains |
| RelativeTime.NestedFloors | desktop/renderer/js/components.js:140-160 | flooring seconds, minutes and hours in turn equals flooring the milliseconds by the whole unit |
| RelativeTime.FormatRelativeTime | desktop/renderer/js/components.js:137-166 | an unparsable date is "Invalid date"; under a minute "Just now"; then whole minutes (1-59) with "m", hours (1-23) with "h", days (1-6) with "d"; a week or more the locale date |
| Middleware.RootRouteCovers | frontend/src/middleware.js:24-26 | the public route "/" covers exactly "/" and paths starting with "//" |
| Middleware.Decide | frontend/src/middleware.js:19-61 | public paths and paths no route covers pass; a protected path without a non-empty token is redirected to "/" with the marker header, and only then |
| Middleware.DoubleSlashBypassesGuard | frontend/src/middleware.js:24-31 | "//home" counts as public, so it passes without a token |
| Middleware.GuardIsCaseSensitive | frontend/src/middleware.js:4-14 | "/Friends" is guarded but "/friends" is not |
| Middleware.OneSegment | frontend/src/middleware.js:24-36 | for a one-segment path, some route covers it exactly when it is one of the routes |
| Middleware.NotBelow | frontend/src/middleware.js:25 | a one-segment path is never below a route |
| Middleware.ProtectedSubpath | frontend/src/middleware.js:34-60 | a path below a protected route passes with a token and, unless a public route covers it, is redirected without one |
| Components.ToastId | desktop/renderer/js/components.js:12 | every toast id starts with "toast-" |
| Components.NumeralInjective | desktop/renderer/js/components.js:12 | equal decimal numerals name equal numbers |
| Components.FirstDash | desktop/renderer/js/components.js:12 | in a digits-dash-rest string the first dash follows the digits |
| Components.SplitAtDash | desktop/renderer/js/components.js:12 | a digits-dash-rest string determines its digits and its rest |
| Components.ToastIdInjective | desktop/renderer/js/components.js:12 | different counter values or clock readings always give different ids |
| Components.FindToast | desktop/renderer/js/components.js:63 | the first toast with the id, or none when there is none |
| Components.SpliceWellFormed | desktop/renderer/js/components.js:62-96 | removing one toast keeps the list well formed and leaves no toast with its id |
| Components.ToastManager.constructor | desktop/renderer/js/components.js:5-9 | an empty list with the counter at 0 |
| Components.ToastManager.IdsDistinct | desktop/renderer/js/components.js:11-30 | no two listed toasts share an id |
| Components.ToastManager.Show | desktop/renderer/js/components.js:11-30 | the toast is appended under an id no listed toast has, and the counter advances by one |
| Components.ToastManager.Remove | desktop/renderer/js/components.js:62-96 | an unknown id or a toast already being removed changes nothing; otherwise the first toast with the id leaves and the rest keep their order |
| Components.ToastManager.ClearAll | desktop/renderer/js/components.js:99-120 | the list is empty and the counter unchanged |
| Components.ToastManager.Count | desktop/renderer/js/components.js:123-125 | the number of listed toasts |
| Components.Shortened | desktop/renderer/js/components.js:297-305 | a text of at most 30 characters is kept; a longer one becomes its first 30 characters and "..." |
| Components.LastMessagePreview | desktop/renderer/js/components.js:291-306 | no last message gives "Start a conversation"; the user's own message is prefixed with "You: "; the text is shortened to at most 38 characters |
| Components.Hits | desktop/renderer/js/components.js:376-384 | the filter never lengthens the list |
| Components.HitsMembers | desktop/renderer/js/components.js:376-384 | exactly the contacts with an id whose first, last or display name contains the query are kept |
| Components.HitsAll | desktop/renderer/js/components.js:376-384 | when every contact matches, the whole list is returned in order |
| Components.FilterContacts | desktop/renderer/js/components.js:370-385 | a blank query returns the list; otherwise exactly the contacts hit by the lower-cased query |
| Components.ValidatePassword | desktop/renderer/js/components.js:411-413 | a password is valid exactly when it has at least 6 characters |
| FrontendUserStatus.Statuses | frontend/src/services/userStatusService.js:48-53 | the collected object never has the empty id as a key |
| FrontendUserStatus.StatusesKeys | frontend/src/services/userStatusService.js:48-53 | the keys are exactly the ids of contacts with an id and a defined flag |
| FrontendUserStatus.StatusesLastWins | frontend/src/services/userStatusService.js:49-53 | the flag filed under an id is that of the last usable contact with the id |
| FrontendUserStatus.IsUserOnline | frontend/src/services/userStatusService.js:32-42 | the stored flag when the user has one, else the caller's default |
| FrontendUserStatus.SetUserStatus | frontend/src/services/userStatusService.js:9-16 | an empty id changes nothing; otherwise exactly the id is added to the keys |
| FrontendUserStatus.SetThenRead | frontend/src/services/userStatusService.js:9-42 | after a set the user reads the new flag and every other user reads what they read before |
| FrontendUserStatus.ClearUserStatus | frontend/src/services/userStatusService.js:63-70 | an empty id changes nothing; otherwise the user reads offline whatever the default, and others are unaffected |
| FrontendUserStatus.OnStatusUpdate | frontend/src/services/userStatusService.js:20-24 | a push without a user id changes nothing; otherwise that user reads the pushed flag and no other key changes |
| FrontendUserStatus.InitializeStatuses | frontend/src/services/userStatusService.js:45-60 | a missing list changes nothing; otherwise the collected statuses are laid over the current map |
| FrontendUserStatus.InitializeKeepsOthers | frontend/src/services/userStatusService.js:45-60 | a user no usable contact names keeps what they read before |
| DesktopUserStatus.ToastFor | desktop/renderer/js/userStatus.js:71-73 | the toast lasts 4000 ms and is a success toast exactly when the user came online |
| DesktopUserStatus.Pruned | desktop/renderer/js/userStatus.js:82-89 | exactly the entries no older than the cooldown are kept, unchanged |
| DesktopUserStatus.PrunedAt | desktop/renderer/js/userStatus.js:82-89 | repeated cleanups never add entries |
| DesktopUserStatus.CooldownSurvivesCleanups | desktop/renderer/js/userStatus.js:60-89 | cleanups run at earlier times never lift a running cooldown |
| DesktopUserStatus.UserStatusService.constructor | desktop/renderer/js/userStatus.js:4-20 | empty statuses, listeners and notification history; not initialized |
| DesktopUserStatus.UserStatusService.Init | desktop/renderer/js/userStatus.js:22-33 | the service is initialized and subscribes only the first time |
| DesktopUserStatus.UserStatusService.NotifyListeners | desktop/renderer/js/userStatus.js:161-171 | every current listener is handed the current statuses; nothing else changes |
| DesktopUserStatus.UserStatusService.SetUserStatus | desktop/renderer/js/userStatus.js:91-101 | an empty id changes nothing; otherwise the flag is stored and listeners are told only when it changed |
| DesktopUserStatus.UserStatusService.IsUserOnline | desktop/renderer/js/userStatus.js:103-113 | the stored flag for a known non-empty id, else the default |
| DesktopUserStatus.UserStatusService.CleanupNotificationHistory | desktop/renderer/js/userStatus.js:82-89 | the history becomes its pruned form; nothing else changes |
| DesktopUserStatus.UserStatusService.ShowStatusNotification | desktop/renderer/js/userStatus.js:60-80 | inside the cooldown nothing is shown or recorded; otherwise one toast is shown and the time recorded before pruning |
| DesktopUserStatus.UserStatusService.HandleUserStatusUpdate | desktop/renderer/js/userStatus.js:35-58 | no payload, no id or an unchanged flag changes nothing; otherwise the flag is stored, listeners told, and another user's change is toasted unless in cooldown |
| DesktopUserStatus.UserStatusService.InitializeStatuses | desktop/renderer/js/userStatus.js:115-130 | a missing list changes nothing; otherwise the usable contacts' flags are laid over the statuses and listeners told |
| DesktopUserStatus.UserStatusService.ClearUserStatus | desktop/renderer/js/userStatus.js:132-135 | the user is then offline whatever the default |
| DesktopUserStatus.UserStatusService.AddListener | desktop/renderer/js/userStatus.js:150-155 | the callback joins the listener set |
| DesktopUserStatus.UserStatusService.RemoveListener | desktop/renderer/js/userStatus.js:157-159 | the callback leaves the listener set |
| DesktopUserStatus.UserStatusService.GetUsersStatus | desktop/renderer/js/userStatus.js:179-185 | one entry per requested id, each the user's flag with default offline |
| DesktopUserStatus.UserStatusService.Cleanup | desktop/renderer/js/userStatus.js:187-195 | unsubscribed, no listeners, no statuses, not initialized |
| DesktopSocket.TypeFrame | desktop/renderer/js/websocket.js:166 | a control frame is the JSON object holding only its type |
| DesktopSocket.ListenersOf | desktop/renderer/js/websocket.js:407-408 | an event type nobody subscribed to has no callbacks; a subscribed one has its list |
| DesktopSocket.Calls | desktop/renderer/js/websocket.js:406-416 | one delivery per registered callback, in registration order, each with the event's kind and payload |
| DesktopSocket.Without | desktop/renderer/js/websocket.js:400-404 | filtering never lengthens the callback list |
| DesktopSocket.WithoutMembers | desktop/renderer/js/websocket.js:400-404 | exactly the callbacks other than the removed one stay; removing an absent callback changes nothing |
| DesktopSocket.SubscribeThenUnsubscribe | desktop/renderer/js/websocket.js:390-404 | unsubscribing a newly subscribed callback restores the list |
| DesktopSocket.StripCr | desktop/renderer/js/websocket.js:242 | a piece without a trailing carriage return is kept as it is |
| DesktopSocket.SplitLines | desktop/renderer/js/websocket.js:242 | splitting yields at least one piece |
| DesktopSocket.NonBlank | desktop/renderer/js/websocket.js:245 | only non-blank pieces stay |
| DesktopSocket.NonBlankKeeps | desktop/renderer/js/websocket.js:245 | a list without blank pieces is kept whole |
| DesktopSocket.Frames | desktop/renderer/js/websocket.js:242-245 | no more messages than lines, and none of them blank |
| DesktopSocket.FramesOfLine | desktop/renderer/js/websocket.js:242-245 | a single-line JSON message is read as one frame |
| DesktopSocket.FramesOfBatch | desktop/renderer/js/websocket.js:242-245 | a newline-joined batch of single-line messages splits back into those messages |
| DesktopSocket.Absorb1 | desktop/renderer/js/websocket.js:247-268 | one frame changes only the deliveries, the sent frames and the last pong time |
| DesktopSocket.OneFrameEach | desktop/renderer/js/websocket.js:240-273 | when each message is one line, reading them frame by frame equals reading them directly |
| DesktopSocket.BatchingIsTransparent | desktop/renderer/js/websocket.js:240-273 | a batched delivery has the same effect as the messages one by one |
| DesktopSocket.Absorb | desktop/renderer/js/websocket.js:240-273 | earlier deliveries are kept as a prefix, and only the deliveries, the sent frames and the pong time change |
| DesktopSocket.PingPongNotDispatched | desktop/renderer/js/websocket.js:250-261 | ping and pong frames are never handed to listeners |
| DesktopSocket.Absorb1NoPing | desktop/renderer/js/websocket.js:250-264 | one message hands no ping or pong to a listener |
| DesktopSocket.PingCount | desktop/renderer/js/websocket.js:251 | no more pings than messages are counted |
| DesktopSocket.Pongs | desktop/renderer/js/websocket.js:253 | n pong frames |
| DesktopSocket.PingsAnswered | desktop/renderer/js/websocket.js:251-256 | an open socket answers every ping with one pong, in order; a socket that is not open sends nothing |
| DesktopSocket.PongTimed | desktop/renderer/js/websocket.js:258-261 | the pong time becomes now exactly when some frame was a pong, else it is kept |
| DesktopSocket.Pow15 | desktop/renderer/js/websocket.js:291 | a power of 1.5 is at least 1 |
| DesktopSocket.ReconnectDelay | desktop/renderer/js/websocket.js:291 | every delay lies between 3 and 30 seconds |
| DesktopSocket.ReconnectDelays | desktop/renderer/js/websocket.js:291 | the first five delays are 3000, 4500, 6750, 10125 and 15187.5 ms, all under the 30-second cap |
| DesktopSocket.UpdatedQuality | desktop/renderer/js/websocket.js:89-107 | offline means offline quality; 4g means good and 3g fair; no connection info keeps the quality |
| DesktopSocket.NextAttempts | desktop/renderer/js/websocket.js:282-289 | the attempt count grows by one up to the maximum and then stays there |
| DesktopSocket.LogsOut | desktop/renderer/js/websocket.js:195-215 | only a 1006 or 1008 close logs out; a 1008 always does, a 1006 only when its reason mentions "unauthorized" |
| DesktopSocket.WebSocketService.constructor | desktop/renderer/js/websocket.js:15-43 | no socket, no listeners, nothing sent or delivered, good quality, not logged out |
| DesktopSocket.WebSocketService.IsConnected | desktop/renderer/js/websocket.js:418-420 | connected exactly when the socket is open |
| DesktopSocket.WebSocketService.Subscribe | desktop/renderer/js/websocket.js:390-398 | the callback is appended to its kind's list; nothing else changes |
| DesktopSocket.WebSocketService.Unsubscribe | desktop/renderer/js/websocket.js:400-404 | the callback is filtered out of a known kind's list, an unknown kind changes nothing, and the callback is then not registered |
| DesktopSocket.WebSocketService.NotifyListeners | desktop/renderer/js/websocket.js:406-416 | every callback of the kind receives the payload; nothing else changes |
| DesktopSocket.WebSocketService.SendMessage | desktop/renderer/js/websocket.js:362-368 | the frame is sent exactly when the socket is open, and the result says so |
| DesktopSocket.WebSocketService.HandleLine | desktop/renderer/js/websocket.js:247-268 | the state becomes the effect of one frame |
| DesktopSocket.WebSocketService.HandleMessage | desktop/renderer/js/websocket.js:240-273 | the state becomes the effect of every non-blank line of the data, in order |
| DesktopSocket.WebSocketService.PingTick | desktop/renderer/js/websocket.js:164-168 | an open socket sends one ping; otherwise nothing changes |
| DesktopSocket.WebSocketService.SendStatusMessage | desktop/renderer/js/websocket.js:370-388 | the pending status is dropped when it repeats the last one sent, else replaced |
| DesktopSocket.WebSocketService.StatusTimerFires | desktop/renderer/js/websocket.js:381-387 | a pending status is sent and remembered when the socket is open, and is dropped in every case |
| DesktopSocket.WebSocketService.CheckConnectionQuality | desktop/renderer/js/websocket.js:306-325 | an open socket goes to poor quality after 60 s without a pong and is closed after 90 s; otherwise nothing changes |
| DesktopSocket.WebSocketService.Connect | desktop/renderer/js/websocket.js:109-151 | offline tells listeners the device is offline; an unauthenticated user or a live socket changes nothing; otherwise a socket starts connecting |
| DesktopSocket.WebSocketService.HandleOpen | desktop/renderer/js/websocket.js:153-178 | attempts reset, pong time set, socket open, heartbeat running, listeners told it connected with the current quality |
| DesktopSocket.WebSocketService.ScheduleReconnect | desktop/renderer/js/websocket.js:275-304 | offline changes nothing; otherwise the attempts advance and a reconnect is scheduled with the capped delay |
| DesktopSocket.WebSocketService.ReconnectTimerFires | desktop/renderer/js/websocket.js:295-303 | the timer is spent and a socket starts connecting only when online, authenticated and not already live |
| DesktopSocket.WebSocketService.HandleClose | desktop/renderer/js/websocket.js:180-231 | an authorization close logs out; an abnormal close while signed in and online schedules a reconnect; listeners are told of the disconnect |
| DesktopSocket.WebSocketService.Reachability | desktop/renderer/js/websocket.js:56-87 | coming online resets the attempts and reconnects when signed in; going offline tells listeners |
| DesktopSocket.WebSocketService.Announce | desktop/renderer/js/websocket.js:89-107 | the quality is recomputed and network-change listeners are told of it |
| DesktopSocket.WebSocketService.HandleNetworkChange | desktop/renderer/js/websocket.js:56-87 | the online flag, attempts, quality, socket and deliveries change as stated and every other field is kept |
| DesktopSocket.WebSocketService.Disconnect | desktop/renderer/js/websocket.js:327-360 | timers cleared, no socket, no listeners, attempts reset; nothing sent or delivered changes |

## Left out

- WebSocketHub.Hub.SetUserOnline: the status updater is taken to be set; the `statusUpdater != nil` guard before the call is not modelled, so the call is always recorded.
- WebSocketHub.Hub.SetUserOffline: the status updater is taken to be set; the `statusUpdater != nil` guard before the call is not modelled, so the call is always recorded.
- Concurrency in the hub: goroutines, channels, `select`, mutexes and tickers. Every event-loop case is a sequential method, and a started goroutine is recorded in a trace rather than run.
- The socket I/O of `ReadPump` and `WritePump`: JSON decoding of incoming frames, and the write deadlines.
- SQL execution, transactions and database errors. A statement is its effect on the modelled tables. Rows are kept in creation order, so a list ordered by `created_at DESC` is read from the newest row back.
- Go reflection and filesystem I/O in the schema generator. Struct metadata is a datatype, and a directory listing is a parameter.
- HMAC-SHA256, bcrypt, UUID generation and `encoding/json`. They are function parameters or given values.
- Leniencies of Go's base64 decoder that skip `\r` and `\n`: line breaks are not skipped. Like Go's non-strict `StdEncoding`, the decoder accepts non-zero trailing bits.
- Unicode case mapping. `strings.ToLower` and `toLowerCase` act on ASCII letters only.
- `filepath.Join` normalisation. Paths are built with `/`.
- JavaScript string lengths, which count UTF-16 code units. They are sequence lengths here.
- Group, post, event, follow and chat notifications. The payloads handed to the hub are not modelled, except for the audience of a new post (`PostService.PostAudience`).
- File uploads and user look-ups. Banner images, event creator names, `post.User` and sender details are not modelled.
- `FollowService`: the enrichment loops of `GetPendingFollowRequests`, `GetFollowers` and `GetFollowing` are not modelled. They only attach user records. `GetSuggestedFriends` is modelled.
- The chat service's `SearchMessages`: it passes the call to the repository, so it is modelled as `ChatRepository.SearchMessages`.
- `ChatRepository.Matching`: SQL `LIKE` wildcards inside the search term are treated as literal characters.
- `ChatRepository`: `GetChatContacts` is not modelled. It is a read-only join that only feeds the contact list.
- `GroupRepository.GroupStore.DeleteGroup`: the counters stay exact only when no user has two accepted rows in the group. The table has no uniqueness constraint, and the source decrements once per row.
- `EventRepository.EventStore.CreateEvent`: requires an id not yet used, because the source draws a random UUID. Response rows left behind by a deleted event are not modelled.
- `ProfileRepository`: only the editable columns are modelled. Go map iteration over the field mappings is taken in one fixed order; the effect does not depend on it, since the columns are distinct.
- `ProfileService`: the content type of a saved image and the file copy are not modelled.
- `SessionManager`: cookie attributes other than name, value, expiry and `Max-Age` are not modelled.
- `NotificationService`: the logger, the WebSocket delivery and database errors are not modelled.
- `DesktopChat`: desktop notifications, the badge count, listener calls, `readAt` and sender display names are not modelled. `parseInt` of a non-numeric id (`NaN`) is not modelled, and timers are pending-state fields.
- `FrontendChat`: `sendMessage` and `sendTypingIndicator` only call `fetch`, so they are not modelled. `parseInt` yielding `NaN` is not modelled, and `loadMessages` storing a `null` body is not modelled.
- `GroupChat`: the typing handler and the polling interval are not modelled. Group messages have no temporary copies. `GroupChat.AllRead` marks every message read, but the `readAt` stamp is not modelled.
- `RelativeTime.FormatRelativeTime`: the locale-formatted date of an older instant is returned as the instant, not as text.
- `Middleware`: the Next.js `matcher` configuration that selects which requests reach the guard is not modelled.
- `Components.ToastManager.Remove`: the `removing` mark and the delayed splice after the animation are one step. DOM elements and timers are not modelled.
- `DesktopUserStatus`: the display-name lookup is a parameter. Listener callbacks are numbered, so the listener `Set` is a set of numbers.
- `DesktopSocket`: the `WebSocket` constructor throwing is not modelled, nor are the DOM status indicator and its toasts. `JSON.parse` is a parameter, and outgoing JSON is built without escaping. `filterMessages`, `highlightText` and `validateEmail` are not modelled.
- `DesktopSocket.ReconnectDelay`: computed exactly in real arithmetic, whereas the source uses floating point.
- Post service `GetPostWithComments`: it only chains two repository reads, `GetPost` and the comments of a post (`PostService.CommentsOf`). It is not modelled separately.
- Group service `GetUserGroups`, `GetAllGroups` and `UpdateGroup`: plain listing, and a row update with image uploads and no membership rule. They are not modelled.
- Follow service `IsFollowing` and chat service `GetContacts`: they pass the call to the repository (`FollowRepository.IsFollowing`, and the contact query above).

## Findings

| source | as written | input that shows it | evidently intended | confidence | as-written member | corrected member |
|---|---|---|---|---|---|---|
| backend/pkg/websocket/websocket.go:146-148 | a broadcast to a client with a full queue closes its Send and deletes it from `Clients` only, so the user's entry still lists it | user u has one client whose queue is full; a broadcast drops it; u opens a new tab, so Register closes the listed client's Send a second time, which panics | drop the client from both maps, as Unregister does | not executed | WebSocketHub.DropThenRegister (with WebSocketHub.Hub.FanOut) | WebSocketHub.Hub.FanOutDetaching and WebSocketHub.DropThenRegisterDetaching |
| backend/pkg/websocket/websocket.go:558 | the heartbeat sweep closes a stale client's `Done`; the read pump's deferred exit (line 249) closes it again | a client silent for longer than the timeout is evicted, then its read pump ends | close `Done` once | not executed | WebSocketHub.TimeoutThenDisconnect (with WebSocketHub.Hub.Disconnect) | WebSocketHub.Hub.DisconnectOnce |
| backend/pkg/db/sqlite/sqlite.go:350-358 | the `db` tag is split on commas before `pk(` parts are looked for, so `pk(a,b)` becomes the pieces `pk(a` and `b)`, neither of which has the `pk(...)` form | the tag `pk(user_id,group_id)` adds no column to the composite key | read every comma-separated column between `pk(` and `)` | not executed | Schema.CompositeKeyLost | Schema.KeyFromTagFixedReadsKey |
| backend/internal/follow/service.go:191-226 | accepting a request inserts a follower row and bumps both counters without checking that the pair already follows | f already follows t and t accepts f's request: a second follower row is inserted, and after f unfollows, t's follower counter is one more than t's follower rows | accept only when the pair does not follow yet, so the row stays unique and the counters match the rows | not executed | FollowService.AcceptFollowRequest with FollowService.AcceptWhileFollowingDrifts | FollowService.AcceptFollowRequestOnce |
| backend/internal/post/repository.go:256-260 | deleting a post removes only its `posts` row; its `post_viewers` rows stay, and the next id (lines 854-878) reuses the deleted one | posts 1 (public) and 2 (private, with viewer v) exist; post 2 is deleted; the next post gets id 2 again, and v may view that new private post of another author | delete the post's viewers with it | not executed | PostService.DeletePost with PostService.DeletedPostViewerSeesNextPost | PostService.DeletePostCascading with PostRepository.FreshPostUnseen |
| desktop/renderer/js/chat.js:97-112 | the server echo of a sent message replaces every temporary copy with the same content and parties | the same text sent twice before the first echo arrives: both temporary copies become the first echo, so two entries share one id | replace only the first matching temporary copy | not executed | ChatClient.TwoTempsBecomeDuplicates | ChatClient.MergedOnceKeepsIdsDistinct |
