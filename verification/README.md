# A verified model of the column-group database engine

The engine stores a table as JSON files, one per row and column group, and keeps a DuckDB table with
one flattened column per `Group.Column` as a materialised copy. Users write SQL over `Group.Column`
names; the engine rewrites it for the flat table. This project models four parts of it in Dafny and
proves what they promise.

1. **Two-store agreement** (`Schema`, `Rows`, `Storage`, `Assembler`, `Database`, `Loader`,
   `TwoStores`, `Engine`, `Interleaving`, `Alone`, `Manager`). Row operations write the files and refresh one
   DuckDB row; loads and syncs rebuild in bulk; `SmartLoad` decides from a fingerprint and a row
   count whether a rebuild may be skipped; the schema manager caches schema files. Classes model the
   storage, DuckDB, assembler, loader, indexer, engine and manager; file operations and DuckDB
   statements are atomic and each may fail. `TwoStores` proves `SmartLoad` sound over whole runs, with
   operations stopped anywhere, and `Interleaving` proves agreement over all interleavings of
   operations on different rows, whose steps run alone end where the methods do (`Alone`).
2. **Query translation** (`Text`, `Parser`, `Clauses`, `Scanner`, `Keywords`, `Query`, `Printing`,
   `Translator`, `Semantics`, `Meaning`). The keyword search, the splitting of the select list, the
   leftmost non-overlapping rewriting as an explicit scanner, resolution, validation and reassembly.
   A small syntax tree with a printer and two evaluators (over grouped rows, and over flat rows, with
   SQL's three-valued logic, ORDER BY and LIMIT) states that translation preserves meaning.
3. **Sliding-window rate limiter** (`RateLimiting`). A pruned log decides as the full history would
   and enforces a bound on every interval.
4. **Token lifecycle** (`Auth`). Issue, validate, refresh, revoke and clean up as a timed state
   machine. Expiry follows section 4.1.4 of RFC 7519.

## Hypotheses

- Flat names are pairwise distinct and none is `_row_id` (`FlatDistinct`); stored columns do not flatten
  to another column's name (`FlatSafe`). `FlatNamesCanCollide` shows why, and group names without an
  underscore are enough (`FlatNameInjective`).
- Row ids do not begin with `.` or `_`, since listings hide those (see Findings).
- In `Interleaving` no SQL statement writes to DuckDB while operations run.
- A row whose stored columns are not all in the schema cannot be inserted; the operation fails.
- A JSON null and a missing value both mean NULL. Values are opaque; there is no type coercion.
- The clock is monotone. A rate-limiter key is used with one window; the server does not ensure this
  (see Findings), and `WindowsAgreeIff` says exactly which windows may share a key.
- The two hashes are injective: a fingerprint is the map from listed row ids to modification times, a
  schema hash is name, time stamp and groups with their columns (not the primary key). A structural change of a row directory gives it a modification time not seen before.
- For a skip by `SmartLoad` (`CarefulSince` in `TwoStores`): there is a moment, with no index yet or right
  after an index build, a load that finished or a DuckDB wipe, since which every step either left the
  index outdated, that is, some row it records gone or moved, or was careful: no row that listings hide
  went into DuckDB, no write stopped between overwriting a group file and the DELETE, no interrupted
  removal or outside edit took away the files of a row that DuckDB held and the index did not know, and
  no SQL statement changed a row of DuckDB to anything but what the files said. What came before that
  moment does not matter. That outside edits give a fingerprint never seen would not be enough
  (`NewFingerprintIsNotEnough`). The last build could count its rows (`LastBuildCounted`), and the
  metadata can be read again. A rebuild needs no hypothesis.
- In printed statements names are identifiers, literals have no blank at their ends, and table name and
  unqualified names are not clause keywords (`Readable` in `Printing`); no keyword of a later clause
  (ORDER, LIMIT, GROUP, HAVING, UNION between spaces) occurs in the WHERE, which is exactly what the
  parser needs (`Parses`, `PrintedParsesIff`); and no literal holds an identifier-dot-identifier pattern,
  which is exactly what the rewriting needs (`Plain`, `TranslatesToFlatIff`). A printed flat statement is
  taken by DuckDB as the tree it was printed from, and a quoted literal as the string between its quotes.
- Permanence of revocation needs the access duration to be at most the refresh duration plus a
  nanosecond (`RevocationPermanentIff`); refresh lineages are conserved for every configuration. The
  emergency branch of cleanup is not taken.

## Findings

Places where the code falls short of what it is for, with the lemmas that give failing inputs and the
exact conditions.

- `SmartLoad` can skip a rebuild it needs: after a stop between overwriting a file and the DELETE
  (`StaleRowFoolsSmartLoad`); after an interrupted removal of a row newer than the index together with an
  interrupted refresh (`OrphanFoolsSmartLoad`), or an outside edit in place of the removal
  (`NewFingerprintIsNotEnough`); after a SQL statement that changes DuckDB alone, which Engine.Query and
  the execute endpoint allow (`SqlWriteFoolsSmartLoad`); when the row count could not be read in the last
  build and was recorded as 0 (`UncountedBuildFoolsSmartLoad`); when the second read of the metadata
  fails, which skips the count check (`UnreadCountFoolsSmartLoad`). Careless steps matter at most until
  the next build, finished load or wipe. After a run that has been careful since one of these and one
  more step of any kind, a skip is right exactly when that step was careful and DuckDB holds as many
  rows as the index (`SkipRightIff`, `SkipAfterRunRightIff`, `CountDecides`).
- A row whose id begins with `_` or `.` is in DuckDB after its insert and in no load or sync, though the
  server accepts ids that begin with `_` (pkg/api/server.go:43). A finished write keeps the stores equal
  exactly when listings show its row (`HiddenRowDisagrees`, `FinishedWriteAgreesIff`).
- A revoked access token is accepted again after cleanup when access tokens live longer than
  revocations are remembered (`LongAccessTokenRevives`, exact in `RevocationPermanentIff`).
- A renewed access token carries no permissions, so it has those of its login exactly when that granted
  none (`RenewalKeepsPermissionsIff`). The server's login grants read and write
  (pkg/api/server.go:546). All runs keep permissions exactly when no refresh token is ever valid
  (`PermissionsSurviveIff`, failing run in `RenewalLosesPermission`).
- One rate-limiter key may be used with both windows: the middlewares' keys are `ip` and `ip + ":login"`,
  and getClientIP takes the address from a request header as it stands (pkg/api/server.go:364-371). The
  shorter window then prunes grants the longer should count (`MixedWindowsForget`; with the server's own
  limits, a sixth login within a quarter of an hour in `SixthLoginGranted`). Decisions are always
  those of the full history exactly when the two windows are equal and no longer than the cleanup's, or
  count nothing (`WindowsAgreeIff`).
- A WHERE text is cut at a keyword of a later clause, inside a string literal such as `'in order to'`
  too: parsing succeeds with another WHERE (`KeywordCuts`, exact in `ParsePrintedIff`).
- An unqualified column name that begins with an underscore or holds an opening parenthesis is passed on
  unresolved even when just one column has it (exact in `UniqueNameResolvesIff`).
- `GetRequiredColumnGroups` leaves out the groups of ORDER BY (`OrderByGroupsAreMissing`; exact for one
  column sorted by another in `SortedBySufficesIff`), and returns none for `*` and unqualified names
  (`UngroupedListsFail`; exact for any list and any groups in `KeepSufficesIff`).
- References inside string literals are rewritten like any other, so that `A.x = 'a.b'` looks for `a_b`
  and misses the row that holds `a.b` (`LiteralFindsItsRowIff`, `DottedLiteral`). The translation is the
  flat statement exactly when no literal holds a reference (`TranslatesToFlatIff`, on texts `KeptIffNoRef`).
- Rewriting twice can differ from rewriting once (`ChainsAreRewrittenTwice`), exactly when a dot was left
  over because the dot before had used up the name between them (`TranslateRefsIdempotentIff`).

Documentation: pkg/api/API.md shows access tokens that live an hour; the code's default is fifteen
minutes (pkg/api/auth.go:24-25). The model takes both durations as parameters.

## Model

| member | source | states |
|---|---|---|
| RateLimiting.RateLimiter.Allow | pkg/api/server.go:59-85 | The answer and the new log, for the key asked about and every other key, are those of the specification the run theorems are about. |
| RateLimiting.PruneOld | pkg/api/server.go:66-74 | Exactly the timestamps after the cutoff, in order. |
| RateLimiting.RateLimiter.Cleanup | pkg/api/server.go:88-106 | In whatever order keys are visited, exactly the timestamps older than the longest window go, and keys left with none are forgotten. |
| RateLimiting.SweepKeeps | pkg/api/server.go:88-106 | A cleanup keeps exactly the times of the last 900 seconds, and a key exactly when it has one. |
| RateLimiting.LogAgrees | pkg/api/server.go:63-74 | In any run with advancing cutoffs the pruned log and the full history hold the same grants after any cutoff not yet pruned away. |
| RateLimiting.PruningIsInvisible | pkg/api/server.go:59-106 | In any run with advancing cutoffs pruning and cleanup change no decision. |
| RateLimiting.LimiterRefinesFullHistory | pkg/api/server.go:59-106 | With a monotone clock and one window per key, every run is decided as if all grants were kept forever. |
| RateLimiting.MixedWindowsForget | pkg/api/server.go:63-74 | For every two windows, the longer positive, a run of one key in which the limiter grants what the full history would deny. |
| RateLimiting.SixthLoginGranted | pkg/api/server.go:315-346 | With the limits and windows the two middlewares pass: five logins, a general request on their key a minute later, and a sixth login granted that the full history denies. |
| RateLimiting.EmptyWindowsAgree | pkg/api/server.go:59-85 | Windows that are not positive count nothing, pruned or not. |
| RateLimiting.LongWindowForgets | pkg/api/server.go:88-106 | For every window longer than the cleanup's, a run in which the cleanup loses a grant that should have counted. |
| RateLimiting.WindowsAgreeIff | pkg/api/server.go:59-106 | A key used with two windows is decided as by the full history in all runs if and only if they are equal and at most the cleanup's, or neither is positive. |
| RateLimiting.LogRemembers | pkg/api/server.go:63-82 | The log still holds every grant after any cutoff not yet pruned away. |
| RateLimiting.WindowNotFull | pkg/api/server.go:76-84 | A grant means that the run so far had not filled the window that ends with it. |
| RateLimiting.GrantKeepsBound | pkg/api/server.go:76-84 | A grant given while the last window is not full keeps every window within the limit. |
| RateLimiting.EveryWindowBounded | pkg/api/server.go:59-85 | No interval of one window holds more grants than the limit, in any run. |
| RateLimiting.RateBound | pkg/api/server.go:59-85 | Any interval of k windows holds at most k times the limit, in any run. |
| RateLimiting.ServerBounds | pkg/api/server.go:26-36 | The constants: at most 100 requests in any minute, 5 logins in any quarter of an hour. |
| RateLimiting.GrantedIff | pkg/api/server.go:59-85 | With a monotone clock and one window per key, a request is granted if and only if fewer than its limit were granted to its key within the window that ends with it. |
| RateLimiting.ServerLimits | pkg/api/server.go:26-36 | The four constants. |
| RateLimiting.ServedIff | pkg/api/server.go:315-346 | A request as withRateLimit makes it is granted exactly while fewer than 100 were within 60 seconds, a login as withLoginRateLimit makes it while fewer than 5 were within 900. |
| RateLimiting.DenialIsInvisible | pkg/api/server.go:76-84 | Striking a denied request from a run changes no other decision. |
| RateLimiting.ServedAfterOneWindow | pkg/api/server.go:63-84 | A request one window after a denial is granted when nothing was granted in between, however often it was asked. |
| Auth.AuthManager.GenerateTokenPair | pkg/api/auth.go:222-276 | Both new tokens are issued with the right kind, permissions and expiry; nothing else changes. |
| Auth.LoginTokensSay | pkg/api/auth.go:222-276 | At any time after a login its access token says username, permissions, kind and both times, and its refresh token the same without permissions. |
| Auth.AuthManager.ValidateToken | pkg/api/auth.go:279-307 | The claims of an issued, unrevoked, unexpired token, or which of the three checks failed first. |
| Auth.AuthManager.RefreshTokens | pkg/api/auth.go:310-325 | Succeeds exactly for a valid refresh token; then the old one is revoked and a pair issued, otherwise nothing changes. |
| Auth.AuthManager.RevokeToken | pkg/api/auth.go:328-332 | The token is on the revocation list with the time of the call. |
| Auth.AuthManager.CleanupRevokedTokens | pkg/api/auth.go:336-363 | Exactly the revocations younger than the refresh duration stay; when they are too many, a subset of them of the stated size does. |
| Auth.StepKeepsDoomed | pkg/api/auth.go:336-347 | No call makes a revoked or expired token acceptable again. |
| Auth.RevokedIsDoomed | pkg/api/auth.go:279-347 | Over any run, a token once revoked is rejected at the end of the run and at all later times. |
| Auth.RevokedWereNamed | pkg/api/auth.go:328-332 | A token is on the revocation list only if some call named it. |
| Auth.AccessTokenAccepted | pkg/api/auth.go:279-307 | Over every run, a login's access token that no call asked to revoke is accepted exactly until its expiry in whole seconds, with the login's username and permissions. |
| Auth.RefreshTokenAccepted | pkg/api/auth.go:310-320 | Over every run, a login's refresh token that no call asked to revoke can be exchanged exactly until it expires, and its access token never. |
| Auth.RefusalReasons | pkg/api/auth.go:279-307 | Revoked comes before badly signed, and that before expired. |
| Auth.RevocationPermanentIff | pkg/api/auth.go:328-347 | Revocation is permanent in all runs if and only if the access duration is not positive or at most the refresh duration plus one nanosecond. |
| Auth.LongAccessTokenRevives | pkg/api/auth.go:336-347 | For every other pair of durations a run that revives a revoked token. |
| Auth.RefreshLineageConserved | pkg/api/auth.go:310-325 | For every configuration, in every reachable state each login has at most one live refresh token among its descendants, so live refresh tokens never outnumber logins. |
| Auth.LineageOverRun | pkg/api/auth.go:222-325 | The invariant behind it, over any run. |
| Auth.RefreshTokensCarryNoPermissions | pkg/api/auth.go:252-271 | In every reachable state no refresh token carries permissions. |
| Auth.RenewalHasOrigin | pkg/api/auth.go:310-325 | The new refresh token goes back to the same login as the one it replaces. |
| Auth.RefreshTokensSayWho | pkg/api/auth.go:245-256 | Every refresh token says the username of its login. |
| Auth.RenewedTokensSay | pkg/api/auth.go:310-325 | Both tokens of a renewal say the username of the login it goes back to; the access token grants nothing. |
| Auth.RenewalKeepsPermissionsIff | pkg/api/auth.go:310-325 | In any run, the access token a renewal gives out has the permissions of the login it goes back to if and only if that granted none. |
| Auth.RenewalLosesPermission | pkg/api/auth.go:310-325 | For every positive refresh duration a run whose renewal loses a permission. |
| Auth.PermissionsSurviveIff | pkg/api/auth.go:310-325 | Every renewal of every run keeps its login's permissions if and only if the refresh duration is not positive, so that there are no renewals. |
| Schema.TableSchema.AllColumns | pkg/colgroup/schema.go:99-110 | The list of columns in group order, column order within a group. |
| Schema.TableSchema.GetColumnGroup | pkg/colgroup/schema.go:75-82 | The first group of that name, or none exactly when there is none. |
| Schema.TableSchema.GetColumn | pkg/colgroup/schema.go:85-96 | A column found is declared; one not found is not, when group names are unique. |
| Schema.TableSchema.Validate | pkg/colgroup/schema.go:129-175 | Accepts exactly the schemas with a name, at least one group, unique non-empty names, and a primary key, if any, that has a dot and names a declared column. |
| Schema.ColumnsAreTheDeclared | pkg/colgroup/schema.go:99-110 | A column is listed if and only if some group declares it. |
| Schema.ValidatedColumnsAreUnique | pkg/colgroup/schema.go:129-175 | A validated schema lists no column twice. |
| Schema.ColumnAt | pkg/colgroup/schema.go:99-110 | Each column is in the list at its place: after all columns of the groups before. |
| Schema.WellFormedIff | pkg/colgroup/schema.go:129-175 | A schema is accepted if and only if, in terms of the list of its columns, it and its groups have names, all different, no column is listed twice or without a name, and the primary key, if any, names a column when cut at its first dot and trimmed. |
| Schema.FlatNameInjective | pkg/colgroup/schema.go:58-60 | Without underscores in group names equal flat names mean equal columns. |
| Schema.FlatNamesCanCollide | pkg/colgroup/schema.go:58-60 | Two different columns with one flat name. |
| Rows.Row.SetValue | pkg/colgroup/assembler.go:40-45 | The named column has the value, its group is created when missing, all else stays. |
| Rows.Row.GetValue | pkg/colgroup/assembler.go:48-55 | The value and whether it is there. |
| Rows.Row.ToFlatMap | pkg/colgroup/assembler.go:58-67 | In any map order: the keys are exactly the flat names of stored columns, each with a value of a column of that name. |
| Rows.ParseRowFromMap | pkg/colgroup/assembler.go:315-330 | In any map order: every key that can be split gives a column, and nothing else does. |
| Rows.SplitKeyIff | pkg/colgroup/assembler.go:315-330 | A key with a dot is cut at the first one, one without at the first underscore, and one with neither is no column. |
| Rows.FlatteningUnique | pkg/colgroup/assembler.go:58-67 | When flat names differ, the map order does not show. |
| Rows.FlattenRoundTrip | pkg/colgroup/assembler.go:315-330 | Parsing a flattened row gives the row back, empty groups aside, when group names hold neither separator and column names no dot. |
| Storage.DiskStorage.MkdirAll | pkg/storage/disk.go:199-212 | A missing directory appears empty with a fresh time; an existing one stays. |
| Storage.DiskStorage.WriteJSON | pkg/storage/disk.go:62-87 | One group's file is replaced; the directory's time moves exactly when the file is new; a failure changes no file. |
| Storage.DiskStorage.ReadJSON | pkg/storage/disk.go:41-59 | The stored data of a group, or nothing exactly when there is no such file. |
| Storage.DiskStorage.DeleteDir | pkg/storage/disk.go:109-122 | The whole row goes, or on failure nothing does. |
| Storage.DiskStorage.ListDirs | pkg/storage/disk.go:125-149 | Every directory whose name does not begin with a dot or an underscore, once. |
| Storage.DiskStorage.SaveIndexMeta | pkg/duckdb/indexer.go:61-64 | The metadata is replaced, or unchanged on failure. |
| Storage.DiskStorage.GetIndexMeta | pkg/duckdb/indexer.go:51-58 | What was last saved, or a failure. |
| Database.DuckDB.CreateTable | pkg/duckdb/loader.go:28-56 | CREATE TABLE IF NOT EXISTS: an existing table stays; a repeated column name fails. |
| Database.DuckDB.InsertRow | pkg/duckdb/engine.go:181-204 | Succeeds only for a new id and known columns; the row goes in with NULL for the rest. |
| Database.DuckDB.DeleteRow | pkg/duckdb/engine.go:67-72 | DELETE by id removes that row and no other. |
| Database.DuckDB.TruncateTable | pkg/duckdb/engine.go:207-210 | All rows go, the columns stay. |
| Database.DuckDB.CountRows | pkg/duckdb/loader.go:255-259 | The number of rows, or a failure. |
| Database.DuckDB.SelectIds | pkg/duckdb/engine.go:97-139 | Exactly the ids in the table, or a failure. |
| Assembler.Assembler.InsertRow | pkg/colgroup/assembler.go:70-96 | A file for every group of the schema, empty where the row has none, over what is stored; other rows and other groups are untouched. |
| Assembler.Assembler.ReadRow | pkg/colgroup/assembler.go:99-121 | The stored groups the schema knows. |
| Assembler.Assembler.ReadRowColumns | pkg/colgroup/assembler.go:124-152 | Exactly the requested columns that are stored. |
| Assembler.Assembler.UpdateRow | pkg/colgroup/assembler.go:155-192 | In any map order: stored groups merged column by column with the row's; an unknown row fails without a change. |
| Assembler.Assembler.DeleteRow | pkg/colgroup/assembler.go:195-198 | The row's directory goes. |
| Assembler.Assembler.UpdateColumnGroup | pkg/colgroup/assembler.go:238-248 | One group is replaced as a whole; others stay. |
| Assembler.ReadAfterUpdate | pkg/colgroup/assembler.go:155-192 | Reading after an update: the new value where the update names the column, the old one elsewhere. |
| Assembler.ReadAfterInsert | pkg/colgroup/assembler.go:70-96 | Reading after an insert gives exactly the inserted row, as far as the schema knows it. |
| Assembler.ReadAfterGroupUpdate | pkg/colgroup/assembler.go:238-248 | Reading after a group was replaced: the new data in it, the old elsewhere. |
| Assembler.ReadColumnsRestrictsRead | pkg/colgroup/assembler.go:124-152 | Reading some columns is reading the row and keeping those columns. |
| Loader.PaddedIsFlatten | pkg/duckdb/loader.go:110-115 | A row goes into DuckDB exactly when its columns are the schema's, and then as its flattening. |
| Loader.DeclarationHasNoRepeats | pkg/duckdb/loader.go:34-44 | For a validated schema with distinct flat names CREATE TABLE names no column twice. |
| Loader.Loader.CreateDuckDBTable | pkg/duckdb/loader.go:28-56 | An existing table keeps its rows, a new one is empty. |
| Loader.Loader.InsertRow | pkg/duckdb/loader.go:110-115 | The flattened row is added under a new id, or nothing changes and why. |
| Loader.Loader.RefreshRow | pkg/duckdb/loader.go:118-133 | On success the row is the flattened files; on failure it is as before or gone. |
| Loader.Loader.DeleteRow | pkg/duckdb/loader.go:136-140 | That row goes and no other. |
| Loader.Loader.LoadTable | pkg/duckdb/loader.go:67-107 | Success leaves exactly the flattened listed rows, from any prior contents; stopping anywhere leaves each row as before or as the files say. |
| Loader.Loader.LoadRows | pkg/duckdb/loader.go:89-106 | From an emptied table, success leaves exactly the flattened listed rows; failure means trouble or a row that does not fit the schema. |
| Loader.Loader.LoadTableIncremental | pkg/duckdb/loader.go:143-185 | Success adds the missing rows and leaves those already there as they were; it ends where a full load does exactly when the prior contents were a sub-map of that. |
| Loader.Loader.InsertMissing | pkg/duckdb/loader.go:168-184 | Every listed row not among the given ids is added flattened; the rest stays. |
| Loader.Loader.SyncTable | pkg/duckdb/loader.go:189-247 | Success with the ids read leaves exactly the flattened listed rows, in any map order; with the ids unread, old rows stay. It fails only on trouble, a row that does not fit the schema, or a repeated column name. |
| Loader.Loader.SyncRows | pkg/duckdb/loader.go:206-247 | With the right ids the result is the flattened listed rows; with none, success means no listed row was there before. |
| Loader.Loader.DeleteMissing | pkg/duckdb/loader.go:217-224 | In any map order exactly the rows that are not listed go. |
| Loader.Loader.RefreshAll | pkg/duckdb/loader.go:226-246 | Every listed row becomes its flattened files; a row taken as absent was absent. |
| Loader.Loader.LoadRow | pkg/duckdb/loader.go:91-99 | One row is read and added flattened, or nothing changes and why. |
| TwoStores.SmartLoadSound | pkg/duckdb/indexer.go:193-242 | After any history of finished and interrupted operations, loads, builds, wipes, outside edits and SQL statements: when SmartLoad reports success, DuckDB is the flattened files, if it rebuilt, or if the steps since some build, finished load or wipe were careful or left the index outdated and the last build was counted. |
| TwoStores.SkipIsJustified | pkg/duckdb/indexer.go:113-138 | In a reachable world a skip means the stores agree: equal fingerprints make DuckDB a sub-map, equal counts make it equal. |
| TwoStores.SkipKnowsSchema | pkg/duckdb/indexer.go:120-127 | Over histories in which the schema changes: a skip means that the last build was under a schema with the same columns and time stamp as the one in force. |
| TwoStores.FreshIndexSkipped | pkg/duckdb/indexer.go:113-138 | An index just built is skipped under its schema. |
| TwoStores.CountAtEnd | pkg/duckdb/indexer.go:141-190 | The recorded count is right when the last build could count, whatever earlier builds did. |
| TwoStores.InvSince | pkg/duckdb/indexer.go:141-242 | A build, finished load or wipe establishes the invariant whatever came before, and steps that are careful or leave the index outdated keep it. |
| TwoStores.SkipRightIff | pkg/duckdb/indexer.go:193-242 | After one more step of any kind, a SQL statement included, from a reachable world, a skip is right if and only if the step was careful and DuckDB holds as many rows as the index, whether or not the recorded count was read or true. |
| TwoStores.CarelessIsWrong | pkg/duckdb/indexer.go:193-242 | A careless step after which SmartLoad would skip leaves a wrong row in DuckDB. |
| TwoStores.StaysOutdated | pkg/duckdb/indexer.go:67-89 | Nothing but a build makes an outdated index current. |
| TwoStores.SkipAfterRunRightIff | pkg/duckdb/indexer.go:193-242 | The same at the end of any run careful since some build, finished load or wipe, whatever came before; with the last build counted and the metadata reread, carefulness of the last step alone decides. |
| TwoStores.CountDecides | pkg/duckdb/indexer.go:193-242 | At the end of such a run a skip is right if and only if DuckDB holds as many rows as the index. |
| TwoStores.FinishedOperationsKeepAgreement | pkg/engine/engine.go:111-153 | Row operations that finish keep the stores equal. |
| TwoStores.StaleRowFoolsSmartLoad | pkg/duckdb/loader.go:118-133 | Stopped before the DELETE, an update leaves a stale row that a skip does not see. |
| TwoStores.OrphanFoolsSmartLoad | pkg/engine/engine.go:141-153 | An interrupted removal and an interrupted update cancel out in the row count. |
| TwoStores.NewFingerprintIsNotEnough | pkg/duckdb/indexer.go:67-89 | An outside edit that gives a new fingerprint, a proper removal that brings the recorded one back, and an interrupted update: a wrong skip. |
| TwoStores.UncountedBuildFoolsSmartLoad | pkg/duckdb/indexer.go:141-190 | A count recorded as 0 matches an emptied table. |
| TwoStores.UnreadCountFoolsSmartLoad | pkg/duckdb/indexer.go:193-242 | Without the second metadata read an emptied table is taken as current. |
| TwoStores.SqlWriteFoolsSmartLoad | pkg/engine/engine.go:161-198 | A statement that changes a row of DuckDB alone is not seen by the skip. |
| TwoStores.HiddenRowDisagrees | pkg/storage/disk.go:215-220 | A row with a hidden id is in DuckDB after its insert and in no load. |
| TwoStores.FinishedWriteAgreesIff | pkg/engine/engine.go:111-138 | A finished write keeps the stores equal if and only if listings show its row. |
| Engine.Indexer.ComputeDataHash | pkg/duckdb/indexer.go:67-89 | The fingerprint of all listed rows. |
| Engine.Indexer.NeedsReindex | pkg/duckdb/indexer.go:113-138 | Says no only when the recorded schema and fingerprint are the current ones; says yes whenever the recorded columns or time stamp differ, and otherwise only when something differs or on trouble. |
| Engine.Indexer.BuildIndex | pkg/duckdb/indexer.go:141-190 | Success leaves the flattened files in DuckDB and metadata that says so; failure is a bulk load stopped somewhere. |
| Engine.Indexer.SmartLoad | pkg/duckdb/indexer.go:193-242 | Every outcome is a step the soundness theorem is about, and a rebuild happens only when the index could not be skipped or on trouble. |
| Engine.Engine.InsertRow | pkg/engine/engine.go:111-123 | Files and DuckDB take a row-write step; success stores every group of the schema. |
| Engine.Engine.UpdateRow | pkg/engine/engine.go:126-138 | The same with groups merged; an unknown row fails without a change. |
| Engine.Engine.UpdateColumnGroup | pkg/engine/engine.go:263-274 | The same with one group replaced. |
| Engine.Engine.DeleteRow | pkg/engine/engine.go:141-153 | A row-delete step: files first, then DuckDB. |
| Interleaving.StepsAreLocal | pkg/engine/engine.go:111-153 | A file or DuckDB step of one row leaves all other rows as they are. |
| Interleaving.StepKeepsInv | pkg/duckdb/loader.go:118-140 | Every step of every operation keeps the invariant tying progress, files and table. |
| Interleaving.SettledRowsAgree | pkg/engine/engine.go:111-153 | In every interleaving the stores agree on every row not in flight and not failed. |
| Interleaving.QuiescentStoresAgree | pkg/engine/engine.go:111-153 | With nothing in flight or failed DuckDB is the flattened files. |
| Interleaving.InsertNeverCollides | pkg/duckdb/loader.go:118-133 | The INSERT of a refresh never meets its own id. |
| Interleaving.CompletionRepairs | pkg/duckdb/loader.go:118-133 | A completed operation brings a row back into agreement, even after a failed one. |
| Alone.RefreshAlone | pkg/duckdb/loader.go:118-133 | Run alone, the read, DELETE and INSERT steps leave the flattened files, or no row when they do not fit the schema. |
| Alone.InsertAlone | pkg/engine/engine.go:111-123 | Run alone, InsertRow's steps end with every group of the schema written and the row refreshed. |
| Alone.UpdateAlone | pkg/engine/engine.go:126-138 | Run alone in any order of groups, UpdateRow's steps end with the groups merged and the row refreshed; an unknown row changes nothing. |
| Alone.UpdateGroupAlone | pkg/engine/engine.go:263-274 | Run alone, UpdateColumnGroup's steps end with the group replaced and the row refreshed. |
| Alone.DeleteAlone | pkg/engine/engine.go:141-153 | Run alone, DeleteRow's steps end with the row gone from both stores. |
| Manager.Manager.CreateTable | pkg/colgroup/manager.go:31-71 | Writes and caches a valid schema of a new table; in all other cases changes nothing. |
| Manager.Manager.GetTable | pkg/colgroup/manager.go:74-99 | The cached schema, or the one on disk, which is then cached. |
| Manager.Manager.DropTable | pkg/colgroup/manager.go:102-115 | Forgets the cached schema first, then removes the table. |
| Manager.Manager.UpdateSchema | pkg/colgroup/manager.go:170-195 | Replaces the schema of an existing table on disk and in the cache, or changes nothing. |
| Manager.CacheIsInvisible | pkg/colgroup/manager.go:31-115 | Over every run the cache agrees with disk, and outcomes and disk are those of a manager that always reads disk, but for reads the cache spares from a fault. |
| Manager.CacheIsInvisibleWithoutFaults | pkg/colgroup/manager.go:31-115 | Without faults there is no difference at all. |
| Manager.SchemaStays | pkg/colgroup/manager.go:31-71 | A schema on disk stays until its table is updated or dropped: creating never overwrites. |
| Manager.CreatedIsFound | pkg/colgroup/manager.go:31-71 | A created schema is read back as given, with its time stamp. |
| Manager.UpdatedIsFound | pkg/colgroup/manager.go:170-195 | An updated schema is read back as given, with the new time stamp; others are as before. |
| Manager.DroppedIsGone | pkg/colgroup/manager.go:102-115 | A dropped table is not found, others are as before. |
| Manager.ReadsAreCached | pkg/colgroup/manager.go:74-115 | A schema once read is read again without the disk; a dropped one is forgotten even when the removal fails. |
| Scanner.MatchIsLongestRef | pkg/query/translator.go:24-24 | The scanner matches where the pattern does and takes the longest match. |
| Scanner.WordChars | pkg/query/translator.go:24-24 | The characters of an identifier, written out. |
| Scanner.TranslateRefsSpec | pkg/query/translator.go:176-178 | The length stays; exactly the dots after an unconsumed identifier and before an identifier or `*` become underscores. |
| Scanner.TranslateRefsConcat | pkg/query/translator.go:176-178 | Across a seam no match can span, rewriting and reference search work piece by piece. |
| Scanner.TranslateRefsBeforeSpace | pkg/query/translator.go:176-178 | In particular before any space. |
| Scanner.TranslateRefsIdempotentIff | pkg/query/translator.go:176-178 | A second pass changes nothing if and only if the first left no dot over whose name the dot before had used up. |
| Scanner.TranslateRefsIdempotent | pkg/query/translator.go:176-178 | In particular on text without dotted chains. |
| Scanner.ChainsAreRewrittenTwice | pkg/query/translator.go:176-178 | A text with such a dot, and what each pass makes of it. |
| Parser.SplitColumns | pkg/query/parser.go:196-226 | The loop computes the parts the two inverse laws are about. |
| Parser.JoinSplit | pkg/query/parser.go:196-226 | For all texts: joining the parts gives the text back but for a final comma; non-final parts are balanced and no part has a comma outside parentheses. |
| Parser.DepthCounts | pkg/query/parser.go:203-208 | The depth is the number of opening less that of closing parentheses. |
| Parser.CallStaysWhole | pkg/query/parser.go:203-212 | A function call is one part, whatever commas are between its parentheses. |
| Parser.SplitJoin | pkg/query/parser.go:196-226 | Splitting undoes joining. |
| Parser.ParseColumnList | pkg/query/parser.go:142-193 | Every non-blank part becomes one item, in order. |
| Parser.ParseItem | pkg/query/parser.go:146-189 | One item: a function, a group's columns, a qualified column or a bare name, without its alias. |
| Printing.AliasDropped | pkg/query/parser.go:152-156 | An output alias is dropped, in whatever case its AS is written and with whatever blanks before. |
| Printing.BlanksAroundDot | pkg/colgroup/schema.go:63-72 | Blanks around the dot of a qualified column do not matter. |
| Printing.BlankPartSkipped | pkg/query/parser.go:147-150 | A blank part is no item. |
| Parser.FindEarliest | pkg/query/parser.go:109-114 | No keyword occurs before the place found, and one occurs there unless it is the end of the text. |
| Parser.EarliestIsFirst | pkg/query/parser.go:109-114 | The same of the specification function, for any keywords. |
| Parser.ParseWhere | pkg/query/parser.go:118-136 | The trimmed text between WHERE and the next clause, or none. |
| Clauses.TableUntil | pkg/query/parser.go:109-116 | The table name ends at the first of WHERE and those. |
| Clauses.WhereUntil | pkg/query/parser.go:119-136 | The WHERE ends at the first of ORDER, LIMIT, GROUP, HAVING and UNION between spaces, in any case. |
| Parser.ParseSelect | pkg/query/parser.go:79-139 | The parsed pieces, or which of the two failures. |
| Clauses.CaseIgnored | pkg/query/parser.go:85-136 | Written in any case, the keywords of a canonical SELECT give back the same parts. |
| Clauses.ParseFailsIff | pkg/query/parser.go:86-94 | Which statements fail to parse, and how. |
| Parser.Parse | pkg/query/parser.go:51-76 | The same on trimmed text that begins with SELECT. |
| Clauses.BlanksAroundList | pkg/query/parser.go:93-103 | Blanks around the select list do not matter. |
| Clauses.BlanksAroundStatement | pkg/query/parser.go:51-54 | Blanks around a statement do not matter. |
| Parser.ExtractTrailingClauses | pkg/query/translator.go:120-140 | The text from the first place where a trailing clause occurs: none occurs earlier, and one does there unless the result is empty. |
| Clauses.TrailingFrom | pkg/query/translator.go:120-140 | The tail is all from the first of ORDER BY, LIMIT, GROUP BY and HAVING between spaces, in any case. |
| Clauses.NoTrailing | pkg/query/translator.go:134-136 | Without any of the four clauses there is no tail. |
| Clauses.ParsePrinted | pkg/query/parser.go:79-139 | Parsing a canonical SELECT whose WHERE is carried recovers list, table, WHERE and tail exactly, with nothing lost or doubled. |
| Clauses.ParsePrintedIff | pkg/query/parser.go:79-139 | The parts come back if and only if no keyword of a later clause begins in the WHERE text. |
| Clauses.KeywordCuts | pkg/query/parser.go:119-136 | A WHERE text with any keyword of a later clause anywhere in it, in a literal or not: parsing succeeds and returns another WHERE text. |
| Keywords.ShowLacks | pkg/query/parser.go:106-136 | A printed expression holds a clause keyword only if one of its literals does. |
| Keywords.ListIsFree | pkg/query/parser.go:88-91 | A printed select list of identifiers holds no clause keyword. |
| Keywords.TailHasNoWhere | pkg/query/parser.go:118-119 | A printed tail is not mistaken for a WHERE. |
| Keywords.ExprIsCarried | pkg/query/parser.go:119-136 | A printed WHERE is carried if its literals hold no keyword of a later clause. |
| Printing.KeptIffNoRef | pkg/query/translator.go:176-178 | Text is left alone exactly when it holds no reference. |
| Printing.ShowRewrites | pkg/query/translator.go:104-107 | A printed expression whose literals hold no reference is rewritten to the same expression over flat names, and its references are the groups it uses. |
| Printing.ShowRewritten | pkg/query/translator.go:104-107 | What any printed expression is rewritten to, and which groups are found in it, literals included. |
| Printing.ShowRewritesIff | pkg/query/translator.go:104-107 | It is rewritten to that if and only if no literal in it holds a reference. |
| Printing.TailRewrites | pkg/query/translator.go:109-114 | So is a printed ORDER BY and LIMIT. |
| Printing.ItemParses | pkg/query/parser.go:146-189 | Each kind of item is parsed as what it is. |
| Printing.ListParses | pkg/query/parser.go:142-193 | A printed select list is split and parsed into its items again. |
| Printing.PrintedParses | pkg/query/parser.go:51-139 | Parsing a printed tree whose WHERE is carried recovers its items, table, WHERE text and tail. |
| Printing.PrintedParsesIff | pkg/query/parser.go:51-139 | They are recovered if and only if the WHERE is carried. |
| Printing.LiteralsDecide | pkg/query/parser.go:119-136 | The WHERE is carried if no literal holds a keyword of a later clause. |
| Translator.Translator.ResolveUnqualifiedColumn | pkg/query/translator.go:182-210 | The one column of that name, or not found, or ambiguous with the groups that have it. |
| Translator.Translator.TranslateSelect | pkg/query/translator.go:46-117 | The statement the theorems below are about, or the error of the first item that has one. |
| Translator.Translator.TranslateList | pkg/query/translator.go:50-98 | The select items in order, or the first item's error. |
| Translator.Translator.TranslateItem | pkg/query/translator.go:59-97 | The items one parsed item stands for, or why it stands for none. |
| Translator.Translator.ValidateQuery | pkg/query/translator.go:267-307 | Succeeds exactly when the table is there and every grouped item names a group and a column of it; an empty or unknown table name is the error it is. |
| Translator.Translator.GetRequiredColumnGroups | pkg/query/translator.go:240-264 | Each required group once, in any order. |
| Translator.RequiredIff | pkg/query/translator.go:240-264 | A group is required exactly when an item names it or a reference in the WHERE does. |
| Semantics.TranslateQuery | pkg/engine/engine.go:161-198 | Parse, validate and translate in sequence; a failed file read can only turn an answer into an error. |
| Semantics.ResolvesIffUnique | pkg/query/translator.go:182-210 | A name resolves exactly when one column of the schema has it, and is not found exactly when none has. |
| Semantics.AmbiguousNamesGroups | pkg/query/translator.go:200-207 | The error for an ambiguous name lists exactly the groups that have it. |
| Semantics.ItemSound | pkg/query/translator.go:57-97 | Every emitted item of a valid statement, other than a function call or underscore name, is a column CREATE TABLE declares. |
| Semantics.StatementSound | pkg/query/translator.go:46-117 | For a validated and translated statement: `*` is the declared list in order, and every other emitted item is a declared column, a function call rewritten or an underscore name. |
| Semantics.EveryItemPutsOut | pkg/query/translator.go:56-98 | Every item of a translated list has put out what it stands for: none is lost. |
| Semantics.UniqueNameResolvesIff | pkg/query/translator.go:58-75 | A uniquely named column is found by its bare name exactly when that neither begins with an underscore nor holds an opening parenthesis. |
| Semantics.GroupColumns | pkg/query/translator.go:79-91 | `Group.*` is that group's part of the schema's columns, in order. |
| Semantics.ListTranslates | pkg/query/translator.go:52-98 | The whole list: `*` is the row id and the declared columns in order, items what they stand for. |
| Semantics.AcceptedIff | pkg/query/translator.go:267-307 | A printed statement reaches DuckDB exactly when its table exists and each item names something there. |
| Semantics.TranslatesToFlat | pkg/query/translator.go:46-117 | What reaches DuckDB is the printed flat statement. |
| Semantics.TranslatesTo | pkg/query/translator.go:46-117 | What reaches DuckDB whatever the literals hold. |
| Semantics.TailKept | pkg/query/translator.go:109-114 | Whatever begins with ORDER BY, LIMIT, GROUP BY or HAVING reaches DuckDB with its references rewritten. |
| Semantics.CallKept | pkg/query/translator.go:58-66 | A function call in the select list reaches DuckDB with its references rewritten. |
| Semantics.TranslatesToFlatIff | pkg/query/translator.go:46-117 | For a statement whose parts are recovered, that is so if and only if no literal holds a reference. |
| Meaning.FlatAnswersTheSame | pkg/colgroup/assembler.go:58-67 | The flat statement over flattened rows answers what the original answers over grouped rows. |
| Meaning.TranslationPreservesMeaning | pkg/query/translator.go:46-117 | Printed, parsed, validated and translated, a statement whose items the schema has becomes a flat statement with the same answer over the flattened rows, for all rows. |
| Meaning.LiteralFindsItsRowIff | pkg/query/translator.go:104-107 | SELECT x FROM t WHERE (x = 'v') over a row that holds v: DuckDB is given a statement that finds it if and only if the literal holds no reference. |
| Meaning.DottedLiteral | pkg/query/translator.go:176-178 | The literal for a.b holds one and becomes that for a_b. |
| Meaning.QueryAnswersFromFiles | pkg/engine/engine.go:161-198 | When the stores agree, DuckDB's answer in any scan order is the answer over the row files in that order. |
| Meaning.RequiredAre | pkg/query/translator.go:240-264 | The required groups of a printed statement are those its list names and those found in its WHERE, literals included, no more and no fewer. |
| Meaning.RequiredGroupsSuffice | pkg/query/translator.go:240-264 | Erasing all other groups changes no answer, when ORDER BY needs no other. |
| Meaning.OrderByGroupsAreMissing | pkg/query/translator.go:250-257 | Sorting by another group, it changes the answer. |
| Meaning.KeepSufficesIff | pkg/query/translator.go:240-264 | For a list alone, a set of groups suffices over all rows if and only if every column it stands for is in one of them. |
| Meaning.UngroupedListsFail | pkg/query/translator.go:243-247 | For `*` and lists of unqualified names no group is required, which suffices only if they stand for the row id alone. |
| Meaning.SortedBySufficesIff | pkg/query/translator.go:240-264 | For one column sorted by another the required groups suffice over all rows if and only if both are in one group. |

## Left out

- The DuckDB engine, `database/sql`, JSON encoding, the file system, HTTP handlers, JWT signing, random ids, hashing: abstract contracts only. A signature check is membership in the set of issued tokens, new tokens are fresh.
- More than one table: the stores of the two-store part hold one. The schema of a table is fixed while a run goes on, since CREATE TABLE IF NOT EXISTS never alters a table; only SkipKnowsSchema is about histories in which it changes. Schema objects are values; sharing of a schema pointer between caller and cache is not captured.
- A group file holding JSON `null`, on which UpdateRow writes to a nil map, and reads that fail for other reasons than a missing file: ReadRow leaves such groups out silently.
- Progress callbacks, index times and status texts, ReadAllRows, ReadRowsByIDs and RowIterator: they repeat ReadRow.
- Concurrent operations on one row, and bulk loads beside row operations: the engine holds no lock across the stores and promises no agreement.
- Concurrent refreshes of one token: each auth call is one step with one clock reading.
- The emergency branch of CleanupRevokedTokens in runs: the method's contract covers it, the run theorems assume it away.
- INSERT, UPDATE, DELETE, CREATE and DROP statements, ExtractColumnGroups (the same scan once more), UNION, DISTINCT, `CAST(x AS T)`, output aliases, GROUP BY, HAVING and function calls in the syntax tree and its meaning (that they reach DuckDB is TailKept and CallKept), non-ASCII text.
- An empty select list: the source slices out of range on `SELECT FROM t`; the model returns an error there.
- Storage.DiskStorage.DeleteDir: all or nothing; a recursive removal that fails part-way, with some group files gone, is not modelled.
- Assembler.Assembler.DeleteRow: the same.
- Storage.DiskStorage.ReadJSON: reading a file that exists does not fail.
- Assembler.Assembler.ReadRow: the same, and the schema is always found.
- Assembler.Assembler.InsertRow: the schema is always found; a table-not-found error has no counterpart here (it has in Manager and Translator).
- Loader.Loader.CreateDuckDBTable: the schema is always found.
- Engine.Indexer.ComputeDataHash: a modification time that cannot be read, which the source leaves out of the hash without an error (pkg/duckdb/indexer.go:83-85), is not modelled.
- Engine.Indexer.NeedsReindex: the schema hash does not fail, being of a schema already at hand.
- Engine.Indexer.SmartLoad: the query for the table's existence does not fail.
- Parser.Parse: statements that are not SELECT are one failure; their parsing is not modelled.
- Semantics.TranslateQuery: the same; INSERT, UPDATE and DELETE, which the source rewrites and forwards, are failures here.
- Parser.ParseItem and Translator.TranslateItem, TranslateList, GetColumnGroup: loop bodies and lookups that the source writes inline.
