# Curator skill registry: a verified model of the transparency log

This project models the core of the Curator skill registry in Dafny 4.11 and proves what the
registry promises about it: an append-only, hash-chained log of audit records; an incremental
Merkle frontier and memoized boundary rows kept beside it; the ledgers that make submissions and
imports happen once; the cached health verdict and the write gate behind it; paging pinned to one
committed boundary; checkpoints; bundles; key rotation; the JSON depth bound; the rate limiter.

Each fast structure has a plain definition it must agree with, and the main results are about
every input or every run.

| file | contents |
|---|---|
| `Outcomes.dfy` | `Option` and `Result` |
| `Merkle.dfy` | the plain tree, the frontier append as a function, exactness |
| `Frontier.dfy` | the in-place append, prefix recomputation, append anchors, what a root binds |
| `Records.dfy` | records, signatures, digests, import fingerprints |
| `Ledger.dfy` | the tables, what makes them sound, adding one entry plainly |
| `Boundaries.dfy` | boundary reads, what a boundary binds, the startup gate |
| `Verification.dfy` | the full verification pass over a snapshot |
| `Health.dfy`, `Transactions.dfy` | the verdict; what each write operation does, stated plainly |
| `Store.dfy` | the store object: transactions that commit or restore, repair, verdict, gate |
| `Runs.dfy`, `RunTheorems.dfy` | several processes on one file, every interleaving |
| `Queries.dfy`, `Paging.dfy` | the two read queries, cursors, chains of pages |
| `Bundle.dfy`, `Federation.dfy` | export, import checks, countersigning; two registries together |
| `KeyRotation.dfy`, `JsonDepth.dfy` | two self-contained cores |
| `RateLimiter.dfy`, `RateLimiterBound.dfy` | the limiter; exactly when it keeps its promise |

`dafny verify dfyconfig.toml` checks the whole project. No proof relies on the
verifier's automatic induction, so `--manual-lemma-induction` may be added.

## How the system is modelled

- Hashes and signatures are free constructors, so they are injective by construction; the tree
  results hold for an arbitrary pair hash, with injectivity as a hypothesis where it is needed.
  Canonical bytes are the record body, which excludes `sig`: hashes bind bodies, not signatures.
- Tables are sequences and maps. A write operation works on the transaction's copy and commits it
  whole. The connection has a number of statements that still succeed; all contracts hold for
  every such number, so a failure may hit any statement, COMMIT included.
- A verification pass reads one snapshot; between its start and its publication any steps may
  happen. A page request reads the store twice, with appends allowed in between.
- Clocks, generated keys and new timestamps are parameters. `Utc`/`Malformed` says whether a
  stored time is in the accepted form.

## What turned out not to hold

- The append anchors compare the length of level 0 only. At every log size that is a power of
  two, a top row that claims one node too many is accepted and yields a wrong root
  (`LengthsAreNotAnchored`; as a database, `TamperedFrontier`, `TwoEntriesMisled`). For any accepted
  frontier the next root is right exactly when one stored row is not misleading: the log size is a
  power of two (`NewTopIff`), and the top row claims length two with two different nodes
  (`AnchorsExact`; for the store, with nothing assumed of the frontier, `TamperedAppend`). If the row
  is not misleading, all later roots are right too (`AnchorsSuffice`). Every other wrong length is
  refused or does no harm.
- Import appends its endorsement last, but the ledger re-check takes the first import endorsement.
  The re-check agrees exactly when no earlier import endorsement carries another signature
  (`RecheckIff`). A record relayed over two hops never agrees (`SecondHopFails`), and importing one
  leaves a database the next pass latches on (`SecondHopLatches`). An attested registry stays
  attested by an import exactly when every record it adds re-checks (`AttestedIff`); once one does
  not, no pass attests the file again and no process can be started on it (`NeverAttestedAgain`).
- An export reads the records and then the snapshot, and ships one key for all of them. An importer
  accepts it exactly when it pins that key, no append landed in between, and every record in the log
  is valid and signed by that very key (`ExportAccepted`). Nothing signs the log again, so after a
  key rotation one older record is enough: along every run, no export is accepted any more
  (`OtherKeyBlocksExport`, `RotationEndsExports`).
- The bracket scanner and the structural check do not always refuse a deep text alike: in
  `[1.5, [[...]]]` the structural check stops at the fraction (`LeafBeforeBrackets`). They refuse for
  depth alike if and only if nothing unclean precedes the first bracket over the bound
  (`ScannerMatchesStructure`).
- The limiter's promise of at most twice the limit per window holds in every run of a set of
  callers exactly when the table has room for all of them (`PromiseIffRoom`). With one caller more,
  callers that take turns are each forgotten just before their next call, whatever the limits;
  `ForgettingBreaksTheBound` is the smallest such run.

## Model

| member | source | states |
|---|---|---|
| Merkle.MerkleRoot | src/csk_registry/store.py:2155-2166 | the level-by-level loop (also src/csk_registry/bundle.py:308-319) computes the plain root for every leaf list |
| Merkle.DepthIsCeilLog2 | src/csk_registry/store.py:2194-2233 | the number of levels above the leaves is the base-two logarithm, rounded up |
| Merkle.AppendExact | src/csk_registry/store.py:2175-2234 | from the exact frontier of any prefix the append gives the exact frontier and plain root of the longer one, with ceil(log2 n) pair hashes; it fails exactly beyond 2^64 leaves |
| Merkle.ClimbExact | src/csk_registry/store.py:2194-2233 | repairing the levels above any changed level gives the levels above the new one, or the depth error exactly past level 64 |
| Frontier.FrontierList.Append | src/csk_registry/store.py:2175-2234 | the in-place loop computes the functional append, errors included, for any stored frontier |
| Frontier.RecomputePrefix | src/csk_registry/store.py:2243-2258 | every prefix root equals the plain root and the frontier is exact; refused exactly beyond 2^64 leaves |
| Frontier.AppendAgrees | src/csk_registry/store.py:2175-2240 | an append never depends on the second-last node of an odd level above one |
| Frontier.AllRootsExact | src/csk_registry/store.py:2175-2240 | any run of appends on a frontier that agrees with the exact one reports the plain root each time |
| Frontier.LinksPin | src/csk_registry/store.py:992-1002 | with an injective pair hash and no length assumed, the links and the root pin every level's last node, and below the top the second-last node at even stored lengths and its equality with the last at odd ones |
| Frontier.ClimbPinned | src/csk_registry/store.py:2194-2233 | over pinned levels of any stored lengths a climb refuses or gives the right root and levels, unless it builds a new top over a misleading row, and then its root is wrong |
| Frontier.AnchorsExact | src/csk_registry/store.py:942-1002 | for any accepted frontier an append that succeeds reports the plain root if and only if the stored top row is not misleading, and then leaves a frontier that agrees with the exact one |
| Frontier.NewTopIff | src/csk_registry/store.py:2194-2204 | a new top level is due exactly when the size is a power of two |
| Frontier.AnchorsSuffice | src/csk_registry/store.py:942-1002 | accepted anchors on a frontier that is not misleading make the next and all later roots right |
| Frontier.AnchorsAcceptExact | src/csk_registry/store.py:942-1002 | the exact frontier always passes its own anchors |
| Frontier.AnchorsIff | src/csk_registry/store.py:942-1002 | what accepted anchors say: length and tail of level 0, a boundary row with the head, every level linked to the one below, the top node equal to the root in that row |
| Frontier.LengthsAreNotAnchored | src/csk_registry/store.py:961-1002 | at every power-of-two size, the exact frontier with any other node put before the root in its top row passes all anchors, and the append succeeds with a wrong root |
| Frontier.RootBinds | src/csk_registry/store.py:2155-2166 | equal size and equal root imply equal leaves under an injective pair hash |
| Frontier.RepeatedLastLeaf | src/csk_registry/store.py:2161-2164 | the size is needed: repeating the last leaf of an odd list keeps the root |
| Ledger.LoadSaveFrom | src/csk_registry/store.py:1004-1041 | loading a saved frontier gives it back |
| Ledger.SaveLoadFrom | src/csk_registry/store.py:1004-1041 | what loads satisfies the shape checks and saves back to the same rows |
| Ledger.PutEntrySound | src/csk_registry/store.py:881-940 | adding an entry keeps numbering, chain, columns, all boundary rows, exact frontier and ledger references |
| Ledger.FindRowInChain | src/csk_registry/store.py:981-985 | in a good chain the row of a sequence number is found exactly at that position |
| Ledger.ChainExact | src/csk_registry/store.py:1603-1645 | a chain is good exactly when each row is numbered, hashed onto the row before and has the columns of its record |
| Records.AppendableIff | src/csk_registry/store.py:881-907 | which records may be appended: five fields, and schema 1 without or schema 2 with hash version 2 |
| Records.FirstImportIff | src/csk_registry/store.py:2313-2337 | the re-check takes the first signed import endorsement |
| Records.FingerprintNames | src/csk_registry/store.py:2313-2337 | a fingerprint names exactly the source, commit, content, status and signature it was made from |
| Boundaries.ReadBoundaryExact | src/csk_registry/store.py:1493-1550 | the cached read equals the boundary recomputed from the log for every committed size, and refuses every other |
| Boundaries.BoundaryExact | src/csk_registry/store.py:1493-1550 | size, head, root and time of the boundary of any prefix, the empty one included |
| Boundaries.HeadBinds | src/csk_registry/store.py:908 | equal heads imply equal size, hashes and record bodies |
| Boundaries.BodiesDetermine | src/csk_registry/store.py:908 | equal record bodies imply equal hashes and heads |
| Boundaries.RootBindsBodies | src/csk_registry/store.py:2155-2166 | equal size and root imply equal record bodies |
| Boundaries.GateIffPrefix | src/csk_registry/checkpoint.py:71-103 | the gate accepts another store's checkpoint exactly when its record bodies are a prefix of the live ones |
| Boundaries.GateExact | src/csk_registry/checkpoint.py:71-103 | which checkpoints the gate accepts, which it refuses as below the checkpoint and which as inconsistent, for any version, size, head and root |
| Boundaries.MatchImpliesAccept | src/csk_registry/store.py:2046-2051 | a checkpoint matches exactly when it is the boundary at its size, time included, and is then never refused by the gate |
| Boundaries.EarlierCheckpointAccepted | src/csk_registry/store.py:2069-2095 | a checkpoint from an earlier state of the same history is accepted |
| Verification.WalkChain | src/csk_registry/store.py:1603-1645 | no finding exactly when chain, numbering, columns and timestamps are right, for any rows |
| Verification.WalkIdempotency | src/csk_registry/store.py:1647-1681 | no finding exactly when every idempotency row is right |
| Verification.WalkImports | src/csk_registry/store.py:1683-1701 | no finding exactly when every import row points at a record with its fingerprint |
| Verification.WalkHighWater | src/csk_registry/store.py:1703-1729 | no finding exactly when every high-water row is well formed |
| Verification.IntegrityErrors | src/csk_registry/store.py:1570-1730 | the whole walk is silent exactly on attested metadata, log and ledgers |
| Verification.BoundaryCacheErrors | src/csk_registry/store.py:2261-2310 | the comparator is silent exactly when rows, range, length and, when quiescent, tails agree |
| Verification.CacheMatchesIff | src/csk_registry/store.py:1771-1822 | on one snapshot the comparison passes exactly when both caches equal their recomputation |
| Verification.RecomputeRows | src/csk_registry/store.py:2243-2258 | the expected boundary rows and frontier of a log |
| Verification.VerifySnapshot | src/csk_registry/store.py:1869-1894 | for any snapshot contents a pass reports nothing exactly when the snapshot is attested |
| Verification.AttestedExact | src/csk_registry/store.py:1570-1822 | what attestation says of metadata, rows, times, boundary rows and frontier, field by field |
| Verification.LedgersExact | src/csk_registry/store.py:1647-1729 | what it says of every row of the three ledgers, field by field |
| Transactions.SubmittedSound | src/csk_registry/store.py:1121-1176 | a first keyed submission keeps the tables sound and extends the log |
| Transactions.ImportBatchSound | src/csk_registry/store.py:1412-1432 | an import batch keeps the tables sound, extends the log, and leaves the other ledgers alone |
| Transactions.DecideExact | src/csk_registry/store.py:252-271 | an offer is taken exactly when there is no mark, it is newer, it is the marked boundary again, or it is older and insisted on; outcome and diagnostic of each case |
| Transactions.SubmissionOkIff | src/csk_registry/store.py:1133-1142 | which submissions are tried: auditor, key, digest and a retention of at least a day |
| Transactions.FirstFailureWins | src/csk_registry/store.py:842-862 | after any sequence of integrity errors and checkpoint refusals, at every clock reading: not ready, no writes, and the error and code of the first one |
| StoreProcess.Store.Begin | src/csk_registry/store.py:825-840 | a transaction opens on the committed tables only when writes are allowed |
| StoreProcess.Store.TrustedFrontier | src/csk_registry/store.py:942-1029 | the frontier is trusted exactly when it loads and the anchors hold; otherwise the store latches |
| StoreProcess.TamperedAppend | src/csk_registry/store.py:942-1002 | on a right log with right boundary rows and any frontier rows that pass the anchors, an append that succeeds gives the plain root if and only if the top row is not misleading |
| StoreProcess.TamperedFrontier | src/csk_registry/store.py:961-1002 | every sound database of power-of-two size has such a tampered frontier row: anchors hold, the append succeeds, the root is wrong |
| RunTheorems.TwoEntriesMisled | src/csk_registry/store.py:961-1002 | a registry with two entries is one such database |
| StoreProcess.LevelsPinned | src/csk_registry/store.py:992-1002 | accepted anchors pin the number of stored levels |
| StoreProcess.Store.WriteEntry | src/csk_registry/store.py:908-940 | the incremental write equals recomputing every cache from the whole log |
| StoreProcess.Store.AppendLocked | src/csk_registry/store.py:881-940 | the append refines the plain one, refuses bad records without latching, latches on broken anchors, and on a right log with any accepted frontier writes the right row and boundary if and only if the top row is not misleading |
| StoreProcess.Store.Append | src/csk_registry/store.py:869-879 | commit, return the entry and publish its head and size, or nothing durable changes; in a sound store it succeeds whenever it may |
| StoreProcess.Store.AppendIdempotent | src/csk_registry/store.py:1121-1176 | first, replay or conflict, exactly by the remembered key; a first one publishes the new head and size; failures restore everything |
| StoreProcess.Store.Replay | src/csk_registry/store.py:1149-1157 | a remembered key answers with its stored response, or conflicts on another digest |
| StoreProcess.Store.ImportLocked | src/csk_registry/store.py:1418-1432 | the loop adds exactly the records with unseen fingerprints, in order |
| StoreProcess.Store.AppendUpstreamImport | src/csk_registry/store.py:1370-1453 | in a sound writable store it succeeds exactly for an acceptable offer, read off its fields and the mark; outcome, old mark, new mark, count, published head, and the diagnostic of a refusal; a refusal or failure leaves the tables as they were |
| StoreProcess.Store.AppendImports | src/csk_registry/store.py:1293-1368 | the same for the variant without override |
| StoreProcess.Store.EnsureBoundaries | src/csk_registry/store.py:1043-1119 | while other processes extend the file between its reads: success leaves both caches exact, nothing else is ever written, an exact cache is left alone, right rows are never called corrupt, and it gives up only after four appends landed meanwhile; on a quiet file it succeeds exactly on right rows, any frontier |
| StoreProcess.Store.AttemptRepair | src/csk_registry/store.py:1059-1118 | one attempt asks for another only if the log moved, and writes only to the log it read |
| StoreProcess.SoundMoves | src/csk_registry/store.py:869-940 | later sound states of one history are moves of the kind the repair tolerates |
| StoreProcess.Store.HealthVerdict | src/csk_registry/store.py:1737-1769 | ready exactly when the write gate would open, which is up to and including two intervals after the last pass; serves the latched error and code, or staleness |
| StoreProcess.Store.Publish | src/csk_registry/store.py:1896-1958 | a clean pass publishes the live head, size and its time as verified; a finding latches; a latched store stays latched; the verdict returned is the one a probe would get |
| StoreProcess.Store.Refresh | src/csk_registry/store.py:1824-1958 | a quiescent pass publishes the live head as verified exactly when no read of its walk raised and the database is attested, and returns the verdict a probe would get |
| StoreProcess.Store.ApplyStartupCheckpoint | src/csk_registry/store.py:2069-2095 | on a sound store it passes exactly the checkpoints its log continues, leaving the verdict alone; a refusal latches with the code of its kind |
| StoreProcess.Store.Start | src/csk_registry/store.py:387-416 | the store serves exactly a file whose metadata, log and ledgers are attested and whose boundary rows are right, unless a statement fails; it then serves an attested file and names its head as verified |
| Runs.ActsKeep | src/csk_registry/store.py:703-712 | every action of a process, failed or not, keeps the file sound, only extends the log and keeps its cached head a committed prefix |
| Runs.NextKeeps | src/csk_registry/store.py:869-940 | the same for every step of several processes with passes in flight |
| Runs.RunKeeps | src/csk_registry/store.py:1121-1453 | the invariant holds in every state of every run, and earlier logs are prefixes of later ones |
| RunTheorems.LatchIsForever | src/csk_registry/store.py:842-867 | once latched a process keeps its verdict, is never ready and commits nothing more |
| RunTheorems.ReadyIffWritable | src/csk_registry/store.py:825-840 | in every reachable state and at every clock reading, ready exactly when writes are allowed |
| RunTheorems.PassDecides | src/csk_registry/store.py:1896-1958 | a pass makes an unlatched process writable, until its new deadline, exactly when its walk did not raise and its snapshot was attested, and latches it otherwise; a clean one makes the live head, size and time the verified ones |
| RunTheorems.OnlyPassesExtendDeadline | src/csk_registry/store.py:869-879 | no append, import or gate call moves the staleness deadline of an unlatched process |
| RunTheorems.NoFalseAlarm | src/csk_registry/store.py:1824-1958 | however passes that finish and well-formed writes interleave, nothing latches and every pass leaves its process writable |
| RunTheorems.FreshSystemIsClean | src/csk_registry/store.py:346-416 | a new file with started processes satisfies the hypotheses of the run theorems |
| RunTheorems.HighWaterMonotone | src/csk_registry/store.py:1370-1453 | along every run a mark never disappears, never goes down and never changes body at one version |
| RunTheorems.CommittedOffer | src/csk_registry/store.py:252-271 | a committed import never offered another body at the stored version; an older one needs the override and leaves the mark |
| RunTheorems.FirstSubmission | src/csk_registry/store.py:1158-1176 | a first submission adds one entry and is remembered with its response until its deadline |
| RunTheorems.AtMostOnce | src/csk_registry/store.py:1121-1176 | while no submission uses a time at or past the deadline, every submission under the key, by any process, adds nothing and returns only the original response for the original digest |
| RunTheorems.OwnKeyOnly | src/csk_registry/store.py:1143-1157 | conflicts and replays come only from the caller's own auditor and key |
| RunTheorems.PagingAlongRun | src/csk_registry/app.py:283-330 | over every run, a complete chain of pages is the full answer at its first boundary |
| RunTheorems.CheckpointAlongRun | src/csk_registry/store.py:2069-2095 | over every run, a checkpoint of an earlier state passes the gate of a later one |
| Queries.KeyOrder | src/csk_registry/store.py:1236 | the sort order on artifacts is strict and total |
| Queries.TextLessIff | src/csk_registry/store.py:1236 | text sorts by the first character that differs |
| Queries.RankOneIsLatest | src/csk_registry/store.py:1230-1235 | ranking keeps exactly the latest row of each artifact, one per artifact |
| Queries.WhereRankOne | src/csk_registry/store.py:1230-1235 | filtering before ranking equals ranking before filtering |
| Queries.RecordsAnswer | src/csk_registry/store.py:1214-1241 | a query the store evaluates returns exactly the latest row of each artifact whose source and commit, and whose content hash under its version, are those asked for, ordered by name, source, commit, version and content |
| Paging.ChainPages | src/csk_registry/app.py:347-392 | page i of a chain is part i of the answer at the first boundary, echoes it, and has a cursor exactly when there is more |
| Paging.CompleteChain | src/csk_registry/app.py:500-593 | following cursors to the end gives the full answer without loss, duplicate or reordering, in ceil(total/limit) pages |
| Paging.RecordsChain | src/csk_registry/app.py:283-330 | a complete records chain is exactly the latest row of each artifact at the first boundary that was asked for by those fields, each once, in artifact order, and the records themselves name what was asked for |
| Paging.LogChain | src/csk_registry/app.py:347-392 | a complete log chain is the committed rows after `since`, in order |
| Paging.CursorAccepted | src/csk_registry/app.py:528-593 | any cursor is served if and only if it decodes, accepted keys signed it and its snapshot, it is for this request, it has not expired and its snapshot is a committed boundary of this log; else it is refused as invalid |
| Paging.FirstServed | src/csk_registry/app.py:245-330 | a first page is served exactly for a proper query, at the boundary of the whole log |
| Paging.IssuedCursor | src/csk_registry/app.py:500-525 | the cursor of a page: its key, request, snapshot and offset, and an expiry 3600 seconds after the visit |
| Paging.IssuedCursorServed | src/csk_registry/app.py:500-593 | a cursor issued with a first page is served later exactly within the hour and while its key is accepted |
| Bundle.CheckBundle | src/csk_registry/bundle.py:129-162 | the checks pass exactly when header, signatures, chain head, size and root all agree |
| Bundle.AcceptedIff | src/csk_registry/bundle.py:129-162 | which bundles over the bodies of a log are accepted, by signer, shipped key, schema, records, size, head, root, version and time |
| Bundle.AcceptedBinds | src/csk_registry/bundle.py:143-162 | an accepted bundle whose boundary a sound registry committed holds exactly the record bodies of that registry up to it |
| Bundle.ExportMeans | src/csk_registry/bundle.py:89-98 | records, boundary, key and schema of an export |
| Bundle.CountersignedMeans | src/csk_registry/bundle.py:222-243 | a countersigned record is the offered one with one endorsement more, under the local key, and its fingerprint names the offered fields |
| Bundle.CountersignImports | src/csk_registry/bundle.py:222-243 | each record gets its fingerprint and an endorsement appended last |
| Bundle.ImportBundle | src/csk_registry/bundle.py:101-219 | a bad bundle never reaches the store; a good one becomes one import step of its countersigned records |
| Bundle.RecheckIff | src/csk_registry/store.py:2313-2337 | the re-check recomputes the stored fingerprint exactly when no earlier import endorsement carries another signature |
| Bundle.SecondHopFails | src/csk_registry/bundle.py:222-243 | a record relayed by one registry never passes the re-check at the next |
| Bundle.SecondHopLatches | src/csk_registry/store.py:1700-1701 | such an import commits a sound database that no pass attests |
| Bundle.ExportAccepted | src/csk_registry/bundle.py:89-162 | an export of any sound registry passes the import checks exactly when the importer pins its key, no append landed while it was read, every record is valid and signed by that key, and time and size of the boundary are proper |
| Bundle.OtherKeyBlocksExport | src/csk_registry/bundle.py:143-150 | one record signed by another key: no export of this or any later state is accepted by anyone |
| Federation.RotationEndsExports | src/csk_registry/keys.py:210-226 | the same along every run |
| Bundle.ImportAdds | src/csk_registry/store.py:1412-1432 | an import adds one entry per distinct unseen fingerprint, in order, and remembers all |
| Bundle.ImportAgain | src/csk_registry/store.py:1418-1424 | importing the same batch again changes nothing |
| Federation.ImportTwice | src/csk_registry/store.py:1370-1453 | after a committed import, the same batch and boundary again change no table: a no-op with nothing imported, or an older offer let in again; only a missing override refuses it |
| Federation.OfferIsProper | src/csk_registry/bundle.py:164-180 | the offer of an accepted bundle is its boundary, and a well-formed mark exactly under a proper key id and time |
| Federation.MarksStayProper | src/csk_registry/store.py:1703-1729 | importing accepted bundles keeps every committed mark well formed |
| Federation.AttestedIff | src/csk_registry/store.py:1683-1701 | for any batch, an attested registry stays attested by an import exactly when every record it adds carries the fingerprint the re-check computes |
| Federation.NeverAttestedAgain | src/csk_registry/store.py:1683-1701 | over every run, after one committed import of a record that does not re-check the file is never attested again and no process can be started on it |
| Federation.RoundTrip | src/csk_registry/bundle.py:89-219 | an export passes the other registry's checks; a committed import adds each unseen record once in order, sets the mark where there was none, and keeps the registry attested exactly when no new record was relayed with another import signature |
| KeyRotation.KeyHome.ListPublicKeys | src/csk_registry/keys.py:156-189 | the loop lists exactly the active, retained and staged keys, each once, the active one first |
| KeyRotation.UniqueInOrder | src/csk_registry/keys.py:265-271 | deduplication keeps each key once, in the order of first occurrence |
| KeyRotation.KeyHome.InitializeKey | src/csk_registry/keys.py:142-153 | the files after any number of its writes, and its result |
| KeyRotation.KeyHome.PrepareRotation | src/csk_registry/keys.py:192-207 | the files after any number of its writes, the removal of the staged key after a failed keyring write included, and its result |
| KeyRotation.PrepareRollsBack | src/csk_registry/keys.py:202-206 | a rolled-back preparation leaves the files as they were, or only a further published key that can be retired |
| KeyRotation.KeyHome.ActivateRotation | src/csk_registry/keys.py:210-226 | the files after any number of its writes, and its result |
| KeyRotation.KeyHome.CancelRotation | src/csk_registry/keys.py:229-242 | the files after any number of its writes, and its result |
| KeyRotation.CancelOutcome | src/csk_registry/keys.py:229-242 | a completed cancellation unpublishes exactly the staged key, unless it is also the active one; cut off earlier it has unpublished nothing |
| KeyRotation.GoneForGood | src/csk_registry/keys.py:229-258 | over every run, a cancelled or retired key is in no later published list |
| KeyRotation.RefusedIff | src/csk_registry/keys.py:142-258 | which commands are refused, and with which error |
| KeyRotation.KeyHome.RetirePublicKey | src/csk_registry/keys.py:245-258 | the files after any number of its writes, and its result |
| KeyRotation.StepKeeps | src/csk_registry/keys.py:142-258 | a command cut off anywhere keeps every key in force published |
| KeyRotation.KeysStayPublished | src/csk_registry/keys.py:156-258 | over every run with crashes, a key once active and neither retired nor force-replaced stays published |
| KeyRotation.EmptyHome | src/csk_registry/keys.py:142-153 | a home with no files satisfies the invariant of these runs |
| KeyRotation.PublishedBeforeActive | src/csk_registry/keys.py:210-226 | no rotation activates a key that was not published before |
| KeyRotation.RetireIffFree | src/csk_registry/keys.py:245-258 | a key can be retired exactly when it is published and neither active nor staged, and is then unpublished |
| KeyRotation.ActivationResumes | src/csk_registry/keys.py:210-226 | an activation cut off anywhere is completed by repeating it |
| JsonDepth.CheckJsonDepth | src/csk_registry/protocol.py:38-89 | the character loop refuses exactly when the scan passes the bound |
| JsonDepth.ScanValue | src/csk_registry/protocol.py:72-89 | scanning the text of a value returns to its starting depth, or refuses, exactly by the value's nesting |
| JsonDepth.ValidateExact | src/csk_registry/signing.py:72-104 | the structural check accepts exactly clean values within the bound and refuses for depth only values over it |
| JsonDepth.FirstRefusalWins | src/csk_registry/signing.py:72-104 | for every value, the structural check refuses for depth exactly when, in visiting order, a container over the bound comes before anything unclean, and for another reason exactly when something unclean comes first |
| JsonDepth.DeepIff | src/csk_registry/signing.py:85-99 | there is a container over the bound exactly when the value nests too deep |
| JsonDepth.ScannerMatchesStructure | src/csk_registry/protocol.py:38-89 | for every text the scanner refuses exactly the values nested over the bound, and both bounds refuse for depth alike if and only if nothing unclean precedes the first bracket over it |
| JsonDepth.LeafBeforeBrackets | src/csk_registry/signing.py:72-104 | an unclean leaf before the brackets is refused for itself though the scanner refuses for depth; after them both refuse for depth |
| JsonDepth.BoundIsHundred | src/csk_registry/protocol.py:38-89 | a hundred nested brackets pass both checks, one more passes neither |
| JsonDepth.ClosersBuyNothing | src/csk_registry/protocol.py:38-89 | closing brackets that nothing opened do not lower the depth |
| JsonDepth.LoneSurrogateIff | src/csk_registry/signing.py:81-84 | a string is refused exactly for a surrogate escape that is not one half of a pair |
| RateLimiter.FixedWindowLimiter.Allow | src/csk_registry/limits.py:27-39 | the decision of the key's current window, the recorded entry, and a table within its bound |
| RateLimiter.FixedWindowLimiter.BoundEntries | src/csk_registry/limits.py:41-53 | expired windows go first; only then the entries longest unseen, down to the bound |
| RateLimiter.DecidesLikeUnbounded | src/csk_registry/limits.py:27-53 | with a nondecreasing clock and at most `max_keys` live windows, every decision is that of a limiter that forgets nothing |
| RateLimiter.TableBounded | src/csk_registry/limits.py:41-53 | the table never exceeds `max_keys` in any run |
| RateLimiter.TwicePerWindow | src/csk_registry/limits.py:27-39 | from any state a key gets at most twice its limit in a span of one window |
| RateLimiter.BoundedSpan | src/csk_registry/limits.py:27-53 | the same for a run of the bounded limiter that need not forget a live window |
| RateLimiterBound.PromiseIffRoom | src/csk_registry/limits.py:27-53 | for any positive limits and any finite set of callers: all their ordered runs keep every caller within twice its limit per window if and only if there are at most `max_keys` of them |
| RateLimiterBound.AdmittedEachRound | src/csk_registry/limits.py:41-53 | `max_keys` plus one callers taking turns inside one window have every call admitted, each once per round |
| RateLimiter.ForgettingBreaksTheBound | src/csk_registry/limits.py:51-53 | a run in which forgetting lets a key exceed twice its limit |
| RateLimiter.RetryIsAdmitted | src/csk_registry/limits.py:31-36 | a refused caller that waits the advertised time is admitted |
| RateLimiter.RetryIsLeast | src/csk_registry/limits.py:31-36 | no shorter whole number of seconds would do |
| RateLimiter.FreshWindow | src/csk_registry/limits.py:27-39 | in a fresh window a key has exactly its first `requests` calls admitted, whatever other keys do |

## Left out

- HTTP routing, middleware, error envelopes, audit logging, request bodies, tokens: input and output plumbing.
- SHA-256, Ed25519, PEM, passphrases, base64 of cursors and their length limit: foreign calls or encodings; hashes and signatures are free constructors.
- SQLite itself, schema versions and migrations, `PRAGMA integrity_check`, the foreign-key check (subsumed by the ledger findings), column types: tables hold typed values.
- A COMMIT that raises leaves the source's connection inside the open transaction; the model restores the committed tables and does not follow that connection further.
- Threads of the verifier and the operation deadline: only the order of steps is modelled; a deadline is one of the failures a statement may have.
- Restarting a process within a run: a restart is `Store.Start` on the file, and a run keeps its processes.
- StoreProcess.Store.Start: takes the file as quiet between its own reads; only the repair inside it is modelled with other processes at work (`EnsureBoundaries`).
- Field formats of records, source identities and portable paths: a parameter of the bundle checks.
- Duplicate object keys, byte-order marks and number syntax of the JSON parser: only nesting, strings, safe integers and lone surrogates matter here.
- A malformed keyring file: the files are only those these commands write.
