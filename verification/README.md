# Nakpanel recovery: a verified model

This project models the parts of Nakpanel that must not go wrong when a server is lost, and proves what they promise.

* `StreamFormat.dfy`, `Stream.dfy`: the NKBK encrypted stream. A master key and a random file id determine a file key.
  The plaintext is cut into 1 MiB chunks; each is sealed under a nonce made of a counter and a final flag, with the
  file header as associated data, and written behind a 4-byte length. AES-GCM is an ideal cipher: opening succeeds
  exactly on what some writer sealed, given as a `Table`; `LedgerIsIdeal` builds that table from the writers' seals,
  so the assumption is met by every set of archives with distinct file ids. `Stream.dfy` has the writer and the reader as objects, over
  a destination that may fail at any write and a source that may be cut short or break.
* `Identity.dfy`: numeric user and group ids are restored over a live account table through temporary parking ids.
* `Paths.dfy`, `Archive.dfy`, `Restore.dfy`, `RestoreRuns.dfy`: the preflight pass over an archive, the extraction loop over the same
  entries, and the whole restore as a trace of effects in which any command may fail.
* `Platform.dfy`: the compatibility gate between a manifest and a target host.
* `S3.dfy`, `SigV4.dfy`: multipart upload against a server that may lose any request or reply, and canonical query strings.
* `Roundcube.dfy`: the scanner for overridden settings, the PHP literal parser and two password quoting schemes.
* `SecretMigration.dfy`: plaintext credentials move into the secret store in one transaction, with an environment that
  changes unlocked rows before every statement.
* `SendReceipt.dfy`: a send qualification with a receipt written ahead, at every point where it may be interrupted.
* `Closure.dfy`: installed PHP packages as the exact dependency closure of a profile.
* `Bytes.dfy`: bytes, big-endian integers, byte order and sorting.

Outside calls (file writes, HTTP requests, SQL statements, host commands, the clock) take their outcome from a function
of their position, such as `fate: nat -> Fate`. A theorem for every such function covers every pattern of failures. What
each opening of an archive yields is a function of the opening in the same way. A `ghost` history keeps every
intermediate state, so that a claim about the history holds at every point of interruption. The stream reader appears in
`Archive.dfy` and `Restore.dfy` as the function `Library.read`; `Archive.Streams` says that it is the reader of
`StreamFormat.dfy`, and `Archive.Draining` that the decompressor reads the stream below it to its end and passes errors on.

## Where the code and a stronger claim part

* A passed preflight covers every Roundcube payload, but not every entry: an archive with an unknown entry, or with two
  dumps of one database, passes it and fails in extraction, after services have stopped
  (`Archive.PreflightMissesUnknownEntry`; `Archive.ExtractionSucceedsIff` gives the exact condition).
* The restore opens the archive three times, and its preflight speaks of what the first two openings read. With nothing
  failing outside, a restore that passes it ends in the first thing that is wrong with what extraction reads
  (`Restore.RunRestore`, where `ExactEnd` names it), which is no damaged archive and no unexpected Roundcube payload when
  extraction reads the bytes of the integrity pass (`Restore.Steady`). An archive cut short after the integrity pass
  fails a restore that has passed its preflight (`RestoreRuns.CutArchiveFails`). In every run the order of effects holds,
  and no database is dropped unless the bytes extracted are themselves one finished archive (`Restore.DropNeedsArchive`).
* An archived account with an id below the accepted minimum (gid 0) is parked and never brought back
  (`Identity.GroupZeroStaysParked`; `Identity.PlacedExactly` gives the exact condition).
* A multipart upload reports success when the completion is answered with a success status whose body is lost, even if
  the server never completed it (`S3.LostCompletionReportsSuccess`; `S3.SuccessMeansWhole` gives the exact condition).
  A single request with a declared size below the length of the source can leave an object cut off at that size
  (`S3.ShortSizeCutsObject`; `S3.Put` gives the exact condition); the client may notice the excess of the source first.
* A multipart upload takes a source that fails with `io.ErrUnexpectedEOF`, as a cut HTTP body does, for one that ended,
  and reports success with the bytes read so far (`S3.ShortReadReportsSuccess`); it completes exactly for the sources
  that do not fail with another error (`S3.PutMultipart`).
* A `create_database` job inserted between the final count and the commit of the secret migration keeps its plaintext
  (`SecretMigration.LatePlaintextSurvives`; `SecretMigration.CommittedPlaintext` gives the exact condition).
* A relay secret written between its read-back and the commit displaces the password that the commit then clears
  (`SecretMigration.DisplacedRelayIsLost`; `SecretMigration.CommittedRelay` gives the exact condition).
* Of two active jobs for one database with different passwords only the later password survives
  (`SecretMigration.SharedDatabaseLosesPassword`; `SecretMigration.CommittedSecrets` gives the exact condition).
* A commit whose reply is lost is reported as a failure although it took effect
  (`SecretMigration.LostCommitReplyFails`; `SecretMigration.RunMigration` gives the exact condition).
* The canonical query sorts names and values before they are encoded, the AWS step after; the texts agree exactly when
  encoding keeps the order of every two pairs (`SigV4.CanonicalOrder`), which it does not for the names `A` and `[`
  (`SigV4.BracketChangesOrder`).
* The stream reader takes a source error after the final chunk for the end of the stream, so a clean end says that the
  bytes seen are a whole archive, not that the source ended without error (`StreamFormat.NoSplicing` holds for `broken` sources too).

## Model

| member | source | states |
|---|---|---|
| `StreamFormat.ChunkNonceInjective` | internal/backup/stream.go:71-79 | two nonces are equal exactly when counter and final flag are, for counters below 2^64 |
| `StreamFormat.NoncesUnique` | internal/backup/stream.go:119-174 | in one file no nonce is sealed twice, and the final flag is on the last seal of a finished file and nowhere else |
| `StreamFormat.ChunksDetermined` | internal/backup/stream.go:135-174 | two writer histories with the same plaintext have the same chunks and the same tail, however it was split into writes |
| `StreamFormat.ChunkCount` | internal/backup/stream.go:135-174 | the number of full chunks is the quotient of the length by the chunk size and the final chunk is the remainder, empty at an exact multiple |
| `StreamFormat.LedgerIsIdeal` | internal/backup/stream.go:55-69 | the table of all seals of writers with distinct file keys opens exactly those seals, each to its own chunk |
| `StreamFormat.OpenedChunk` | internal/backup/stream.go:208-240 | a sealed chunk that opens at counter c was sealed as chunk c of the one file with that key, as its final chunk exactly when the final nonce opened it |
| `StreamFormat.NextWritten` | internal/backup/stream.go:208-240 | the reader takes exactly the c-th frame off a stream that has it at counter c |
| `StreamFormat.ChunkIsWritten` | internal/backup/stream.go:208-240 | any frame the reader accepts is byte for byte a frame the writer of that key wrote at that counter |
| `StreamFormat.NoSplicing` | internal/backup/stream.go:187-260 | a byte string read to a clean end is byte for byte one of the finished archives under that master key, and what was returned is its plaintext |
| `StreamFormat.RoundTrip` | internal/backup/stream.go:187-260 | a written stream reads back as its plaintext and then the end; with any bytes appended, as its plaintext and then the corruption error |
| `StreamFormat.Truncation` | internal/backup/stream.go:187-260 | a proper prefix of a written stream, or any prefix of an unfinished one, gives the whole chunks it holds and then the truncation error |
| `StreamFormat.WholeIsQuotient` | internal/backup/stream.go:119-133 | the number of whole frames in a prefix is its length divided by the frame size of a full chunk |
| `Stream.StreamWriter.constructor` | internal/backup/stream.go:95-117 | a new writer stands for the empty plaintext: its header is written, nothing is sealed and the counter is zero |
| `Stream.StreamWriter.FlushChunk` | internal/backup/stream.go:119-133 | exactly the buffered bytes are sealed at the next counter, before the destination can fail |
| `Stream.StreamWriter.Write` | internal/backup/stream.go:135-162 | the bytes taken extend the plaintext, the seals stay those of the chunked plaintext, and a failure is sticky |
| `Stream.StreamWriter.Close` | internal/backup/stream.go:165-174 | the first close of a healthy writer seals the final chunk; a failed or repeated close seals nothing |
| `Stream.StreamReader.NextChunk` | internal/backup/stream.go:208-240 | one chunk is delivered or the first error reported, as the stream's meaning at this point says |
| `Stream.StreamReader.Read` | internal/backup/stream.go:242-260 | a read delivers a prefix of what remains and leaves the rest, up to and including the first error |
| `Stream.WriteStream` | internal/backup/stream.go:95-174 | for every split into writes and every pattern of destination failures, the seals are those of a chunked prefix of the input and the destination holds a prefix of its encoding; success means all of it |
| `Stream.RunCalls` | internal/backup/stream.go:119-174 | for every sequence of Write and Close calls and every pattern of destination failures no nonce is sealed twice and only the last seal may be final; the destination holds a prefix of the encoding of what was sealed |
| `Stream.ReadWith` | internal/backup/stream.go:187-260 | for every sequence of buffer sizes the bytes delivered are a prefix of the stream's meaning, and at the first error all of it; enough non-empty buffers reach that error |
| `Stream.WriteThenRead` | internal/backup/stream.go:95-260 | end to end, beside any other archives with keys of their own: every split into writes and every sequence of buffers give back a prefix of the plaintext, the first error is the end of all of it, and enough non-empty buffers reach it |
| `Identity.NextRestoreParkingId` | internal/backup/restore.go:793-805 | the id returned is the highest one at or below the cursor that is in range, not reserved and free; it fails only when there is none |
| `Identity.ParkingFull` | internal/backup/restore.go:741-791 | if the allocator fails, accounts to move plus reserved and occupied ids in the range exceed its 10001 ids |
| `Identity.Park` | internal/backup/restore.go:741-791 | ids handed out strictly decrease, lie in 50000..60000 and are no archived target; every existing archived account is at its target or on a parking id; no intermediate table shares an id or changes another account; enough parking ids and no failing command mean success |
| `Identity.TargetFree` | internal/backup/restore.go:665-735 | after parking, an archived id is held by no account but its own |
| `Identity.Restore` | internal/backup/restore.go:665-735 | accounts are brought to their archived ids one by one with no shared id in between; with uncontested targets and no failing command it succeeds |
| `Identity.SuccessNeedsUncontested` | internal/backup/restore.go:665-735 | success is possible only with distinct archived ids that no other account holds |
| `Identity.ApplySystemIdentity` | internal/backup/restore.go:665-791 | from any permutation or cycle of ids, success puts every archived name at its archived id; it succeeds whenever ids are uncontested, parking suffices and no command fails; no table on the way shares an id or touches another account |
| `Identity.PlacedExactly` | internal/backup/restore.go:665-791 | after success an archived account that existed is at its archived id exactly when that id is one to restore or was its id already; otherwise it is on a parking id |
| `Identity.GroupZeroStaysParked` | internal/backup/restore.go:670-673 | an archived group 0 that the host has under another id ends on a parking id although the restoration succeeds |
| `Platform.RequireNotOlder` | internal/backup/platform.go:194-214 | accepts exactly when the first components of the target are lexicographically at least those of the source, an unknown source version asking nothing |
| `Platform.CoversTransitive` | internal/backup/platform.go:194-214 | the order on leading components is transitive |
| `Platform.NotOlderTotal` | internal/backup/platform.go:194-214 | the order on leading components is total, and antisymmetric on those components |
| `Platform.NotOlderTransitive` | internal/backup/platform.go:194-214 | the version check is transitive through a known version |
| `Platform.ValidateExecutionInventory` | internal/backup/platform.go:59-81 | accepts exactly when a list claimed complete is there and part of a complete inventory, and a list that is there holds distinct valid versions, all among the required ones, which are valid too |
| `Platform.CheckRestoreCompatibility` | internal/backup/platform.go:92-192 | accepts exactly the compatible pairs of manifest and target, and no mode but the same-platform one |
| `Platform.CompatibleMonotone` | internal/backup/platform.go:92-192 | a manifest accepted for a target is accepted for every target of the same identity that hosts at least its PHP versions and has databases that are not older |
| `Archive.CheckArchiveIntegrity` | internal/backup/archive.go:319-478 | acceptance implies that the entries pass, tar ends cleanly and the rest of the stream drains; without I/O failures it is equivalent to that |
| `Archive.PassedIsAuthentic` | internal/backup/archive.go:283-478 | as the decompressor drains the stream to its end, an accepted file is byte for byte a finished archive under that key, including everything tar left unread |
| `Archive.PassesAgree` | internal/backup/archive.go:319-478 | the preflight state and the extraction state agree after every prefix of the entries |
| `Archive.PreflightCoversRoundcube` | internal/backup/restore.go:231-337 | after a passed preflight, extraction meets no unlisted, duplicate or missing Roundcube payload |
| `Archive.ExtractionSucceedsIff` | internal/backup/restore.go:231-337 | after a passed preflight, extraction succeeds exactly when every entry is of a known, well-formed kind and no two write one dump |
| `Archive.PreflightMissesUnknownEntry` | internal/backup/archive.go:319-478 | an archive of a manifest and one stray entry passes preflight and fails extraction |
| `Archive.ValidatedConfigIsExtracted` | internal/backup/archive.go:319-478 | an entry whose lexical target is a validated configuration file is the only entry of that exact name, and its content is what was validated |
| `Archive.ConfigOnce` | internal/backup/archive.go:319-478 | no accepted MySQL archive has two entries for one configuration file |
| `Restore.CheckGates` | internal/backup/restore.go:90-182 | the gates are evaluated in order up to the first that refuses; all pass exactly when every one of them holds |
| `Restore.Preflight` | internal/backup/restore.go:90-194 | passing means every gate holds and the whole archive authenticates, in that order, and nothing has been changed; without I/O failures that is sufficient |
| `Restore.StopWorld` | internal/backup/restore.go:195-207 | the pool, the fixed services and the instance units listed then are stopped in order, and only the pool's stop can fail the restore |
| `Restore.Extract` | internal/backup/restore.go:215-337 | the commands issued are those of the entries in order, then the drain; it succeeds only when extraction accepts every entry, tar ended cleanly and the stream drained, and no database is touched |
| `Restore.RestoreTenants` | internal/backup/restore.go:355-363 | each tenant dump is dropped and imported in archive order, up to the first name that is no database name |
| `Restore.RestoreDatabases` | internal/backup/restore.go:339-384 | the databases are replaced in a fixed order; after success every dropped one has been imported again and a required ownership hook has succeeded |
| `Restore.StartServices` | internal/backup/restore.go:392-416 | after a reload, exactly the installed services and the allowed instance units listed then are started, in order |
| `Restore.StartOrderAllowed` | internal/backup/restore.go:907-914 | none of the fixed services started is a PHP instance unit |
| `Restore.AdmissibleCovers` | internal/backup/restore.go:184-337 | what passed the preflight has a manifest, and an extraction pass over the same bytes ends cleanly and meets no surprising Roundcube payload |
| `Restore.RunRestore` | internal/backup/restore.go:90-420 | whatever each opening of the archive and each listing of instance units yields: in every trace nothing is changed before all gates and authentication succeed, no database is dropped before the extracted stream is finished, the FPM pool starts only after all imports, no unit start and no reload comes before all imports and the ownership hook succeed, and no PHP instance unit starts; the actions are an initial segment of one plan computed from the request, and success means all of it, with no failure but those that are only logged; a refused gate changes nothing; past preflight a run ends in the first thing wrong with what extraction reads or in an outside failure, and without outside failures exactly in the former; when extraction reads the bytes of the integrity pass that is never a damaged archive or a Roundcube payload |
| `Restore.VerdictSays` | internal/backup/restore.go:184-363 | the end without outside failures is success exactly when the archive is admissible and what extraction reads restorable, a refusal exactly when it is not admissible, and no surprise when the passes agree |
| `RestoreRuns.CutArchiveFails` | internal/backup/restore.go:184-324 | for every finished archive cut to any length between integrity pass and extraction, a restore whose preflight passes ends on a corrupt archive |
| `Restore.DropNeedsArchive` | internal/backup/restore.go:318-343 | in every trace with a dropped database the bytes extracted are byte for byte one finished archive under the key, whatever the earlier passes read |
| `S3.PartsArePartition` | internal/backup/s3.go:183-268 | for every ending of the source the parts concatenate to the bytes it yielded, there is at least one, and all but the last have the part size |
| `S3.AssembleStored` | internal/backup/s3.go:183-268 | a completion assembles exactly the parts that were sent, and can exactly when every part is listed with its tag |
| `S3.NextPart` | internal/backup/s3.go:212-238 | each buffer read extends the parts sent along the partition of the input |
| `S3.SendParts` | internal/backup/s3.go:212-250 | the parts attempted are an initial segment of the partition, numbered from 1, and all of it on success; a source that failed sends no last part, one that ended in a short read does; the object is unchanged |
| `S3.PutMultipart` | internal/backup/s3.go:183-268 | at every request the object is the old content or all bytes the source yielded; a completion is possible exactly when the source did not fail with an error other than a short read; an error after initiation sends exactly one abort, last, and success none; success is reported exactly when the completion was sent and properly answered or its body lost, and the object is then whole exactly when the server carried it out |
| `S3.SuccessMeansWhole` | internal/backup/s3.go:256-267 | a reported success means the whole input exactly when the reply to the completion arrived whole or the server had carried it out |
| `S3.Put` | internal/backup/s3.go:152-166 | both paths leave the old content or one target, which is the whole input exactly when the request declares no smaller size; success in one request means that target |
| `S3.UploadArchive` | internal/backup/s3.go:183-268 | the same from any initial content and any fate of every request; with every earlier request properly answered the completion is sent |
| `S3.ShortReadReportsSuccess` | internal/backup/s3.go:215-238 | a source cut short at any byte by io.ErrUnexpectedEOF is uploaded as far as it went and reported as success |
| `S3.LostCompletionReportsSuccess` | internal/backup/s3.go:257-267 | for every input and old content, a completion reply without its body from a server that did not complete is reported as success |
| `S3.ShortSizeCutsObject` | internal/backup/s3.go:157-163 | every declared size below the length of the source can leave an object cut off at that size and a reported success |
| `SigV4.UriEncode` | internal/backup/sigv4.go:34-50 | the loop computes the encoding |
| `SigV4.EncodeRoundTrip` | internal/backup/sigv4.go:34-50 | percent-decoding (RFC 3986, section 2.1) gives back every byte string |
| `SigV4.EncodedAlphabet` | internal/backup/sigv4.go:34-50 | encoded text holds neither separator of a query string |
| `Bytes.SortStrings` | internal/backup/sigv4.go:52-67 | the result is in byte order and a permutation of the input |
| `SigV4.CanonicalQuery` | internal/backup/sigv4.go:52-67 | the text is the rendering of the query's pairs in order, each as often as the query holds it |
| `SigV4.RenderInjective` | internal/backup/sigv4.go:52-67 | two lists of pairs with the same rendering are the same list |
| `SigV4.CanonicalUnambiguous` | internal/backup/sigv4.go:52-67 | two queries have the same canonical text exactly when they hold the same multiset of pairs |
| `SigV4.EncodedOrder` | internal/backup/sigv4.go:34-67 | two strings compare as their encodings do exactly when, where they first differ, the smaller byte is not an unreserved one against a reserved one |
| `SigV4.CanonicalOrder` | internal/backup/sigv4.go:52-67 | the canonical text is the one sorted by encoded names and values exactly when encoding keeps the order of every two pairs of the query |
| `SigV4.BracketChangesOrder` | internal/backup/sigv4.go:52-67 | a query with the names A and [ is one whose order encoding changes |
| `Roundcube.ParseLiteral` | internal/backup/roundcube_mysql.go:218-247 | the loop accepts exactly what the grammar of quoted literals accepts, with the same value |
| `Roundcube.LiteralRoundTrip` | internal/backup/roundcube_mysql.go:218-247 | for either quote a string is the value of some literal exactly when it has no CR, LF or NUL (nor a dollar sign in double quotes), and then its escaped form is such a literal |
| `Roundcube.ScanOverride` | internal/backup/roundcube_mysql.go:277-317 | the scanner that jumps over comments and strings reports an override exactly when the byte-by-byte lexer is in code at a matching assignment |
| `Roundcube.SQLPasswordRoundTrip` | internal/backup/roundcube_mysql.go:550-553 | an accepted password in doubled-apostrophe form lexes back to itself and ends at the closing quote |
| `Roundcube.OptionPasswordRoundTrip` | internal/backup/roundcube_mysql.go:656-657 | an accepted password written as an option-file value lexes back to itself and ends at the closing quote |
| `Roundcube.PasswordRoundTrips` | internal/backup/roundcube_mysql.go:319-321 | every password the validator accepts survives both forms |
| `SecretMigration.MigrateRelay` | cmd/panelctl/secret_migrate.go:82-112 | the relay password goes on only after the store returned it; nothing but the relay secret changes |
| `SecretMigration.LockJobs` | cmd/panelctl/secret_migrate.go:176-201 | the rows are exactly the legacy rows at that moment, in the order of their ids, and locked |
| `SecretMigration.HandleJob` | cmd/panelctl/secret_migrate.go:203-259 | one row is scrubbed, and an active one's password is stored under its reference, or the run fails |
| `SecretMigration.HandleJobs` | cmd/panelctl/secret_migrate.go:124-141 | all rows are handled and the counters are the numbers of active and of terminal rows |
| `SecretMigration.ClearRelayRow` | cmd/panelctl/secret_migrate.go:143-158 | the row is cleared only while it holds the stored password |
| `SecretMigration.CommitWrites` | cmd/panelctl/secret_migrate.go:170-173 | the writes are published, all at once, exactly when the statement is not refused, and success is reported exactly when its reply arrives |
| `SecretMigration.MigrateLegacySecrets` | cmd/panelctl/secret_migrate.go:76-174 | a run that does not commit has changed no job and no mail setting; a commit is the last event and follows a count that found no plaintext; how the commit statement ends decides whether the run has published and what it reports; the counters equal the rows handled |
| `SecretMigration.RunMigration` | cmd/panelctl/secret_migrate.go:76-174 | the same for any tables, environment and failures: a failed run has changed jobs or mail exactly when its commit statement ended with a lost reply; when nothing disturbs it before its commit statement it gets there exactly when the relay credential and every legacy job can be moved, and the tables it leaves are determined |
| `SecretMigration.SelectedHandled` | cmd/panelctl/secret_migrate.go:161-201 | the locked rows can all be handled exactly when every legacy job can, and publishing them then leaves no plaintext at all |
| `SecretMigration.CommitScrubs` | cmd/panelctl/secret_migrate.go:203-259 | the commit scrubs exactly the locked rows and changes no other job |
| `SecretMigration.CommittedPlaintext` | cmd/panelctl/secret_migrate.go:160-173 | after the commit no job holds plaintext exactly when no unlocked job did just before it, and so if the job table did not change after the count |
| `SecretMigration.LatePlaintextSurvives` | cmd/panelctl/secret_migrate.go:160-173 | a run in which a job arrives after the count commits and leaves that plaintext |
| `SecretMigration.LostCommitReplyFails` | cmd/panelctl/secret_migrate.go:170-173 | a run whose commit reply is lost reports a failure and has scrubbed its job |
| `SecretMigration.CommittedSecrets` | cmd/panelctl/secret_migrate.go:203-241 | every password removed from an active job is in the store exactly when active jobs of one database agree, and so when database ids are distinct |
| `SecretMigration.SharedDatabaseLosesPassword` | cmd/panelctl/secret_migrate.go:203-241 | a run over two active jobs for one database with different passwords commits and leaves only the later password in the store |
| `SecretMigration.CommittedRelay` | cmd/panelctl/secret_migrate.go:82-158 | with no assumption on the environment, a relay password cleared by the commit is in the store after it exactly when it was just before it, that is, exactly when the last change to that secret since the read-back, if any, wrote it |
| `SecretMigration.DisplacedRelayIsLost` | cmd/panelctl/secret_migrate.go:98-158 | a run in which the relay secret is replaced before the commit clears the password from the mail settings while the store holds another |
| `SecretMigration.ReferenceInjective` | cmd/panelctl/secret_migrate.go:214-217 | different database ids have different credential references |
| `SendReceipt.Qualifier.Save` | deploy/multipass/roundcube-send-read.py:215-226 | the receipt is the old one or the whole current state, and the latter on return |
| `SendReceipt.Qualifier.Post` | deploy/multipass/roundcube-send-read.py:305-309 | a send is issued only when the receipt already counts it, and never twice |
| `SendReceipt.Qualifier.AwaitDelivery` | deploy/multipass/roundcube-send-read.py:319-329 | polling ends by the deadline, and the receipt says delivered only after the message was seen |
| `SendReceipt.Qualifier.Handle` | deploy/multipass/roundcube-send-read.py:347-357 | the handler keeps the receipt truthful, whatever the state it finds |
| `SendReceipt.Qualifier.Qualify` | deploy/multipass/roundcube-send-read.py:203-357 | at every instant at most one send was issued and the receipt then counts it; an unconfirmed send reads SUBMITTING or SEND_UNCERTAIN; FAIL means none was issued or it was confirmed; PASS or success means sent, confirmed, arrived and read |
| `SendReceipt.RunQualification` | deploy/multipass/roundcube-send-read.py:198-357 | every run from a fresh start goes in single steps through instants that meet the claims; success leaves a PASS receipt, and a run in which nothing goes wrong succeeds |
| `SendReceipt.SafeClaims` | deploy/multipass/roundcube-send-read.py:203-357 | the invariant of every step implies the claims of the receipt |
| `SendReceipt.WriteAhead` | deploy/multipass/roundcube-send-read.py:303-306 | there is an instant before the send at which the receipt already counts it, and from then on it always does |
| `Closure.NeededIffReachable` | deploy/multipass/sury-maintenance-prepare.py:254-264 | the least closed set of packages is the set on a path of first-alternative edges from a root |
| `Closure.Follow` | deploy/multipass/sury-maintenance-prepare.py:256-264 | a popped package is refused exactly when a PHP dependency is missing; otherwise its edges are all followed |
| `Closure.FollowKeeps` | deploy/multipass/sury-maintenance-prepare.py:255-264 | popping any queue position keeps every reached package queued or followed |
| `Closure.Explore` | deploy/multipass/sury-maintenance-prepare.py:254-264 | for every pop order the loop ends with exactly the least closed set, or fails exactly when a needed package lacks a PHP dependency |
| `Closure.Select` | deploy/multipass/sury-maintenance-prepare.py:239-250 | accepts exactly when every PHP entry is supported, cleanly installed and one signed row, and returns those rows |
| `Closure.InstalledClosure` | deploy/multipass/sury-maintenance-prepare.py:237-266 | the rows are returned, in name order and all of them, exactly when the selected packages are the least closed set and lack no PHP dependency |

## Left out

- Cryptography, randomness, tar, gzip, JSON, XML and regular expressions: taken as parameters or ideal functions with the laws stated in the model.
- 64-bit wrap-around of the chunk counter: a file has fewer than 2^64 - 1 chunks (`StreamFormat.WellFormed`).
- The stream reader after its first error: its errors are not sticky, so claims go up to and including the first one.
- Restore.DropNeedsArchive, Archive.PassedIsAuthentic: rest on `Archive.Draining`, a law of the decompressor that is not derived from its code.
- Archive.ValidatedConfigIsExtracted: speaks of lexical targets; an archived symbolic link below which another entry is written is not modelled.
- Identity.ApplySystemIdentity: primary groups, supplementary groups, sub-id files and lookups that fail for an existing account are not modelled; the user and the group table are.
- Forward migration and its review branches in the restore: the compatibility check refuses every mode but the same-platform one.
- Restore: the content of files, dumps and SQL; a step is its name and its outcome.
- Rename atomicity and directory sync of the receipt under power loss: an interruption leaves the old or the new receipt file.
- SendReceipt.Qualifier.Qualify: the login, compose and inbox exchanges before the send are one call each, since only their outcome matters to the receipt.
- SecretMigration: encryption, key versions and secret metadata; JSON member names in another letter case; arguments that are not an object.
- Closure: the alias check that precedes the closure and the parsing of dependency fields are parameters.
- Roundcube: the configuration file grammar as a whole and the dump validator.
- The signature itself, local and SFTP destinations, key files, retention, platform probing and the command-line front ends.
