# FlockDB, verified

FlockDB puts a storage layer under an embedded SQL engine: immutable manifests over a
content-addressed page store, one private head and log per database, a follower fed from the
primary's log, and sleeping databases that are read page by page out of object storage. This project
models that layer in Dafny and proves the claims its documentation and tests make for it.

`dafny verify dfyconfig.toml` checks everything. There are four groups of modules over one small base.

| group | modules |
|---|---|
| vocabulary | `Substrate`, `Arith` |
| log shipping and followers | `WalFrames`, `WalReader`, `WalSource`, `LogHistory`, `Replica`, `Convergence`, `LostPages`, `Runs`, `Replication` |
| file and pages, eager and lazy | `Paging`, `PageSources`, `ReadPath`, `FlockFile`, `FlockUri` |
| concurrent faults and warm sets | `FaultGates`, `FaultFetches`, `Scheduler` |
| the pool, sleep and wake | `Pool`, `PoolRuns`, `SleepClosure`, `SleepRuns`, `TreeCopy`, `Workspace`, `TierLifecycle`, `TierRuns`, `SleepAgain`, `LostStore` |

## How the code is represented

- Objects that the program updates in place are classes with the same fields: `Replica`, `ReplayClock`,
  `DurableStore`, `PageCas` (shared by every database of a pool), `PageStore`, `Db`, `PoolRoot`,
  `WarmSet`, `WakeScheduler`, `RecordingSource`, `PageSource`, `Bucket`, the file `Handle`. Loops are loops. Each
  such method is proved equal to a function of the old state, and the theorems are about those functions.
- Concurrency, crashes and networks are state machines: an event, whether it is enabled, and the next
  state. Theorems quantify over every run.
- The page store underneath is used through the contract the repository states. A page id is its content
  and a manifest id is the manifest value, so both are injective. A commit that changes no page returns
  the head unchanged; any other derives an overlay on the head that carries the clock's reading. Decoding a
  record the codec has room for returns it with the bytes consumed, or says it is torn (`WalFrames.Exact`).
  The `len | crc32c | body` frame meets that contract, whatever the body format and the checksum are
  (`WalFrames.FrameIsExact`), so the theorems about bytes apply to it for logs whose records fit its 32-bit
  length. A primary in `Replication` can only write such records.

## Where the code and its own prose differ

The model follows the code. Each difference is a theorem with its exact condition, and an input.

- `Replica::apply` commits before it compares ids, so on `Diverged` the durable head has moved, though
  the comment says the replica has advanced only if the ids agree (`Convergence.ApplyOutcome`,
  `Convergence.DivergedMovesTheHead`).
- `restore_to` says the head equals the primary's at the target. It never rewinds: exactly the followers
  at or before the target land there (`Convergence.RestoreExact`, `Convergence.RestorePastTheTarget`).
- A follower "that still needs" lost pages is said to be told so with `MissingPage`. Catching up re-reads the
  log from its start, so one commit with a lost page refuses every follower, also those past it, and every
  restore (`LostPages.RefusedIff`, `LostPages.EarlierPageRefusesAll`).
- An inline checkpoint record keeps the chain of shipments exactly when it names the manifest current at
  that point (`LogHistory.InlineCheckpointChainsIff`). After a rewind whose marker was lost it does not, and
  a follower that took the first shipment is refused the next (`LogHistory.LostRewindBreaksTheChain`,
  `Convergence.LostRewindStopsAFollower`).
- A torn *sealed* segment ends the log silently. What is then read is a prefix of what was written exactly
  under the condition of `WalReader.SealedCutIsPrefixIff`; cut at a record boundary, the middle of the log
  goes missing (`WalReader.SealedCutLosesTheMiddle`).
- The fold merges write records that no commit record follows into the next commit. If a recovered log
  still holds some, the next shipment is truthful exactly when that commit rewrites all of their pages
  (`Runs.OrphanWritesShipTruthIff`). One left-over write of another page makes a follower diverge
  (`Runs.OrphanWriteDiverges`).
- Fault gates are chosen by page number while the collision they prevent is by content hash. They prevent
  it exactly when cold pages with equal content share a gate (`FaultFetches.NeverCollidesIffAligned`); pages 0
  and 1 with the same bytes do not (`FaultFetches.AliasedPagesCollide`).
- `serve_read` succeeds having asked for each covering page once, in order, exactly when every answer on
  the way would do: present, not oversize and long enough (`ReadPath.ReadRangeAsksOnceIff`). A source whose
  page grows between two faults is asked twice and the read succeeds (`ReadPath.GrowingPageIsAskedTwice`).
- The C++ positional read loops because a read "may stop at a page boundary". It never does: one range
  read is everything or an end of file (`FlockFile.Handle.ReadAt`).
- `fork` is not crash-atomic. Interrupted between linking its directory and recording its head, the name is
  taken and opens empty, which is the parent's file exactly when the parent is empty
  (`PoolRuns.TornForkIsAtomicIff`, `PoolRuns.TornForkLosesBytes`).
- `sleep` promises that ids taken before it still restore after the wake. They do exactly if they are in the
  ancestry of the head put to sleep or were in the bucket already (`SleepRuns.SnapshotSurvivesSleepIff`). One
  that was restored away from is not (`SleepRuns.DetourLosesASnapshot`).
- `wake` after a crashed `sleep` opens what is left of the branch's directory before it restores the head.
  It succeeds exactly when that leftover can be opened once the head's pages are adopted
  (`TierRuns.WakeReachesTheHeadIff`): always, unless the pool's store has been lost, and even then if
  nothing is left, or only an empty directory, or one at the record's head (`TierRuns.CrashedRunWakes`).
  Otherwise the branch can stay asleep with everything it needs in the tier
  (`LostStore.TornAndLostStaysAsleep`).
- `wake` adopts the pages of the head alone, while `sleep` uploads the pages of its whole history. After the
  pool's store was lost and a branch woken, it can be put to sleep again exactly when no ancestor has a
  page the head has not and the ancestors' manifests were fetched (`SleepAgain.SleepsAgainIff`); two commits
  to one page are enough that it cannot (`LostStore.WokenCannotSleepAgain`).
- Listing branches strips `.json` from branch directories too, so a branch whose name ends in `.json`
  cannot be resolved, and makes the shorter name resolve (`Workspace.ResolvesIff`,
  `Workspace.JsonDirectoryMisleads`).

## Model

| member | source | states |
|---|---|---|
| WalFrames.FrameIsExact | crates/flock-sync/src/source.rs:10-18 | for any body format and checksum, the framed codec meets the contract on every record that fits its length field: it decodes to itself and consumes exactly its frame whatever follows, and no proper prefix of a frame decodes |
| WalFrames.CorruptFrameIsTorn | crates/flock-sync/src/source.rs:10-18 | a frame whose checksum does not match its body is torn, whatever follows it |
| WalReader.Records | crates/flock-sync/src/source.rs:211-237 | the reader's nested loops return the log function: whole records in order, a clean end moves on, a torn tail ends the log |
| WalReader.WholeWithinIsLongest | crates/flock-sync/src/source.rs:199-210 | the reference answer for a cut at byte k really is the longest run of records that fits in k bytes |
| WalReader.ReadCutSegment | crates/flock-sync/src/source.rs:219-234 | a segment truncated at any byte reads as exactly its longest whole-record prefix, and is torn exactly when bytes are left over |
| WalReader.CutLog | crates/flock-sync/src/source.rs:211-237 | any log split at record boundaries, any segment cut at any byte: the records read are the earlier segments, the whole records of the cut one, and what follows only if the cut was clean |
| WalReader.TornTailIsPrefix | crates/flock-sync/src/source.rs:199-210 | cutting the last segment anywhere reads a prefix of the log; not cutting it reads all of it |
| WalReader.SealedCutIsPrefixIff | crates/flock-sync/src/source.rs:204-232 | the exact condition under which a damaged sealed segment still reads as a prefix |
| WalReader.SealedCutLosesTheMiddle | crates/flock-sync/src/source.rs:204-232 | three records in two segments, the first cut after its first record: the log reads as the first and the third |
| WalSource.BuildShipment | crates/flock-sync/src/source.rs:161-197 | the loop assembles each write in page order and each distinct blob once, or names the missing page |
| WalSource.FindBlobIsFirst | crates/flock-sync/src/shipment.rs:69-74 | the bytes for an id are those of the first blob filed under it, and there are none if and only if no blob is |
| WalSource.ShipmentsFrom | crates/flock-sync/src/source.rs:82-124 | the loop over records with its running base and pending writes emits the fold of the log from the given position, stopping at the first page that cannot be read |
| WalSource.ResumeAfter | crates/flock-sync/src/source.rs:132-144 | zero at the start head, one past the first shipment that produced the head, otherwise unknown |
| WalSource.PositionIsPastFirst | crates/flock-sync/src/source.rs:136-143 | in any list of shipments the position of a head is one past the first shipment that made it, and none if no shipment did |
| WalSource.ReadCheckpointIff | crates/flock-sync/src/source.rs:240-260 | there is a durable marker if and only if the file is there and decodes to a checkpoint record; without one the log starts at the empty root with nothing covered |
| WalSource.ManifestAt | crates/flock-sync/src/source.rs:148-158 | the scan with its early break returns the manifest as of a position |
| LogHistory.FoldSplit | crates/flock-sync/src/source.rs:88-122 | folding a concatenation is folding the second part from where the first ended |
| LogHistory.CheckpointTransparent | crates/flock-sync/src/source.rs:75-98 | folding from a marker at a commit boundary, over whatever is left of the covered log, emits exactly the commits above it with bases and change sets unchanged and ends in the same state |
| LogHistory.DeletingCoveredSegments | crates/flock-sync/src/source.rs:89-94 | deleting any wholly covered segments removes no record above the marker |
| LogHistory.CheckpointedSourceShipsSuffix | crates/flock-sync/src/source.rs:82-124 | at the level of segment bytes: with a durable marker and any covered segments gone, what is shipped from any position is what the full log ships from above the marker on |
| LogHistory.TornMarkerShipsWhole | crates/flock-sync/src/source.rs:240-260 | a marker cut at any byte over a whole log starts from the empty root and ships everything |
| LogHistory.TornSourceShipsPrefix | crates/flock-sync/src/source.rs:199-237 | shipments built from a log torn at any byte are a prefix of the whole log's shipments |
| LogHistory.StraightLogsChain | crates/flock-sync/src/source.rs:77-79 | for every log of a primary that commits and checkpoints, each shipment's base is the previous manifest, the fold ends at the last one, and each manifest is the one its change set derives |
| LogHistory.InlineCheckpointChainsIff | crates/flock-sync/src/source.rs:116-120 | an inline checkpoint between two stretches of log keeps the chain if and only if it names the manifest current there |
| LogHistory.InlineCheckpointForgets | crates/flock-sync/src/source.rs:116-120 | what follows an inline checkpoint ships as if nothing had been pending before it |
| LogHistory.LostRewindBreaksTheChain | crates/flock-sync/src/source.rs:116-120 | a commit, a rewind to the root recorded inline and another commit: exactly two truthful shipments, which do not chain |
| Replica.Replica.Apply | crates/flock-sync/src/replica.rs:123-195 | the object's whole new state and result for duplicate, gap, staged refusal, divergence and advance |
| Replica.Replica.CatchUp | crates/flock-sync/src/replica.rs:202-211 | the loop applies every missing shipment in order, counts the advances and stops at the first error |
| Replica.Replica.RestoreTo | crates/flock-sync/src/replica.rs:220-229 | the loop applies exactly the missing shipments at or below the target |
| Replica.ApplyAllStep | crates/flock-sync/src/replica.rs:202-211 | one more shipment: its refusal ends the run with the count so far, otherwise the count grows exactly if it moved the head |
| Replica.ApplyAllStopsAtError | crates/flock-sync/src/replica.rs:206-209 | nothing after the first refusal is applied |
| Replica.ReplayClock.Set | crates/flock-sync/src/clock.rs:47-56 | the next reading is the value set |
| Convergence.StageMeaning | crates/flock-sync/src/replica.rs:146-176 | staging succeeds if and only if every page set comes with bytes of the claimed hash; it amounts to the last-writer change set; it only adds pages under their own names |
| Convergence.LastWriterIs | crates/flock-sync/src/replica.rs:146-176 | that change set holds, for each page, what the last write to it says, and no page that is not written |
| Convergence.StagedPagesStay | crates/flock-sync/src/replica.rs:146-176 | pages staged before a refusal are in the store after it |
| Convergence.ApplyOutcome | crates/flock-sync/src/replica.rs:110-195 | an if-and-only-if for each outcome of apply, and the head after each: unmoved for a duplicate, a gap, a missing blob or wrong bytes, moved for a divergence; which of the two refusals it is, and its fields, is decided by the first write that does not come with bytes of its hash |
| Convergence.AppliedLsnIs | crates/flock-sync/src/replica.rs:123-195 | the remembered position: a repeat only raises it, an advance sets it, a refusal leaves it; a gap changes nothing at all |
| Convergence.ApplyAllMeaning | crates/flock-sync/src/replica.rs:202-211 | a run of shipments goes through if and only if each of them does, and then the count is of those that moved the head; otherwise the error is that of the first that is refused |
| Convergence.RefusalIsReported | crates/flock-sync/src/replica.rs:202-229 | against any source with something to apply: catching up returns a shipment's error if and only if that one is the first refused, restoring if and only if it is so among those taken; otherwise catching up returns how many moved the head |
| Convergence.UpToIs | crates/flock-sync/src/replica.rs:220-229 | restoring takes every shipment before the first one past the target and no other, whatever order they are in |
| Convergence.DivergedMovesTheHead | crates/flock-sync/src/replica.rs:181-192 | a shipment whose timestamp does not derive its manifest: reported as divergence, with the head already moved off the root |
| Convergence.LostRewindStopsAFollower | crates/flock-sync/src/replica.rs:130-144 | after a lost rewind a follower at the first commit answers the second shipment with a gap and does not move |
| Convergence.ApplyKeepsStore | crates/flock-sync/src/replica.rs:123-195 | whatever is delivered, pages are never lost or misfiled and the head only moves to its own descendants |
| Convergence.AssembleMeaning | crates/flock-sync/src/source.rs:169-188 | a shipment can be built if and only if every page it sets is in the store, and then it carries each change once, in page order, with the store's bytes |
| Convergence.ShipmentCarriesOnce | crates/flock-sync/src/source.rs:176-186 | however many pages share some content, a shipment carries it once |
| Convergence.UntamperedAdvances | crates/flock-sync/src/replica.rs:110-122 | a shipment built from an honest commit and applied at its base always advances, to the primary's very manifest |
| Convergence.PositionsDistinct | crates/flock-sync/src/source.rs:126-131 | no manifest occurs twice along a chain of commits, so a head is a position |
| Convergence.CatchUpExact | crates/flock-sync/src/replica.rs:197-211 | from position k of n, catching up ends at the last commit and returns n - k |
| Convergence.CatchUpUnknownIff | crates/flock-sync/src/replica.rs:202-203 | it fails if and only if the head is neither the start nor a shipped manifest, then with `FollowerUnknown` and nothing changed |
| Convergence.RestoreExact | crates/flock-sync/src/replica.rs:213-229 | restore ends at the last commit at or below the target, or stays if already past it; it equals the primary's manifest there, or the start head, if and only if it began at or before it |
| Convergence.RestorePastTheTarget | crates/flock-sync/src/replica.rs:220-229 | a follower at the first commit asked to restore to before it stays there, without an error |
| Convergence.LastIsLastApplied | crates/flock-sync/src/source.rs:148-158 | the manifest as of a position is that of the last shipment a restore to it would take |
| LostPages.LostPageStopsAll | crates/flock-sync/src/source.rs:88-144 | against any source whose log has a commit that sets a page the store lacks: catching up and restoring, from any head at all and to any target, and asking for the manifest as of any position, fail with `MissingPage` of the first such commit and its first such page, and the follower is as it was |
| LostPages.RefusedIff | crates/flock-sync/src/replica.rs:202-229 | from any position of a chain of commits, catching up and restoring fail if and only if some commit of the log sets a page the store lacks |
| LostPages.SomeIsFirstLost | crates/flock-sync/src/source.rs:161-197 | an incomplete log has such a first commit and page |
| LostPages.EarlierPageRefusesAll | crates/flock-sync/src/source.rs:132-144 | two commits, the page of the first gone: a follower that already has it is refused the second |
| Runs.PrimaryStepKeeps | crates/flock-core/src/store.rs:9-14 | every commit, checkpoint, rewind and crash before a commit record keeps the primary's log, marker, head and page store in agreement |
| Runs.StepShips | crates/flock-core/src/store.rs:9-14 | what each step adds to what the log still ships: a commit that changes something itself, on the head there was; one that changes nothing, and a crash, nothing; a checkpoint or rewind leaves nothing to ship and a start at its target |
| Runs.OrphanWritesShipTruthIff | crates/flock-sync/src/source.rs:96-114 | whatever write records without a commit record a log holds, the next commit's shipment is the change it claims if and only if it rewrites every page they touched |
| Runs.OrphanWriteDiverges | crates/flock-sync/src/source.rs:96-114 | one left-over write, then a commit of another page: the shipment built from that log makes a follower at the root diverge, with its head moved |
| Replication.StepIsSafe | crates/flock-sync/src/replica.rs:123-229 | every step of the system (commit, checkpoint, crash while committing, publish from a log with writes in flight and cut anywhere, deliver anything ever sent, catch up, restore, crash with a shipment half staged) keeps the invariant, and the follower never goes back |
| Replication.FollowerEqualsPrimary | crates/flock-sync/src/replica.rs:98-122 | over every run, at every moment, the follower's head is the start head or a manifest the primary committed, and every page of it reads as on the primary |
| Replication.PinnedReadsPersist | crates/flock-sync/src/replica.rs:98-108 | a read pinned to a head the follower once had returns the same bytes at every later moment of every run |
| Replication.CatchUpConverges | crates/flock-sync/src/replica.rs:197-211 | from every reachable state, reading the whole log brings a known follower to the primary's head with one advance per commit, and leaves an unknown one untouched |
| Replication.StepsConverge | crates/flock-sync/src/replica.rs:197-229 | from every reachable state, a follower at any position: catching up ends at the primary's head, restoring at the last commit at or below the target or where it was, and a crash in the middle of anything loses no page and no position |
| Replication.FramedRunShips | crates/flock-sync/src/source.rs:10-18 | for any format with room for one write and its commit, a run over the framed log in which the primary commits, its log is published and the delivered shipment brings a follower to the primary's head |
| Replication.SomeFramedRunShips | crates/flock-sync/src/source.rs:10-18 | there is such a format, so such runs exist |
| Paging.PageStore.Hydrate | crates/flock-kernel/src/paging.rs:43-98 | the loop appends pages in order, refuses a hole or a missing page, and makes no file of an empty database |
| Paging.PageCas.StageChunks | crates/flock-kernel/src/paging.rs:121-144 | the loop stages exactly the chunks whose bytes differ, leaves every chunk in the store, and fails exactly when a page it must compare cannot be read |
| Paging.PageStore.Persist | crates/flock-kernel/src/paging.rs:111-164 | the new head is the commit of exactly the difference, it is the file, and all of it is stored |
| Paging.DiffApplies | crates/flock-kernel/src/paging.rs:126-154 | the change set holds exactly the pages that differ, applying it gives the new file's map, and it is empty if and only if nothing changed |
| Paging.PersistedHead | crates/flock-kernel/src/paging.rs:156-164 | whatever the store held before, the head becomes the file, and does not move if and only if it already was |
| Paging.HydrateIsFile | crates/flock-kernel/src/paging.rs:36-98 | hydrating a persisted head gives the file byte for byte, and no file for an empty one |
| Paging.HydratesIff | crates/flock-kernel/src/paging.rs:58-76 | any manifest at all, with empty, short or oversize pages, hydrates if and only if its pages are all there and lie end to end at their own numbers |
| Paging.HydrateBreaksAt | crates/flock-kernel/src/paging.rs:58-76 | a manifest that does not hydrate breaks at a page before which all lie end to end, and that page decides the error: the bytes so far do not end at its number, or it is not in the store |
| Paging.ReadableIff | crates/flock-kernel/src/paging.rs:121-144 | a file can be staged over a head if and only if every page of the head it must compare is in the store or equals an earlier chunk |
| Paging.TiledIffContiguous | crates/flock-kernel/src/paging.rs:58-76 | with no empty or oversize page that is: numbered from zero without a hole and all but the last full |
| ReadPath.ServeRead | crates/flock-vfs/src/read.rs:39-117 | in place, for any source: the faults made, the bytes written, nothing else in the buffer touched, and the count or error returned |
| ReadPath.ReadRangeIsSafe | crates/flock-vfs/src/read.rs:11-29 | for any source, honest or hostile: never more than the clamped length, exactly that if and only if no error, every byte from its own page, and no offset overflow |
| ReadPath.ReadRangeAsksOnceIff | crates/flock-vfs/src/read.rs:46-116 | for any source, steady or hostile: the read succeeds having asked for each covering page once, in order, if and only if the answer to each of those questions would be present, not oversize and long enough |
| ReadPath.ReadRangeSucceedsIff | crates/flock-vfs/src/read.rs:46-116 | against a steady source it succeeds if and only if nothing is wanted or the page size is non-zero and every covering page is there, not oversize and long enough; and then the faults are the covering pages, once each, ascending |
| ReadPath.ReadRangeStopsBy | crates/flock-vfs/src/read.rs:46-116 | for any source, the exact reason a read stops: a zero page size, or the answer to the last question asked, absent, oversize or short |
| ReadPath.AsksOnceIffFull | crates/flock-vfs/src/read.rs:67-113 | of the reads that succeed, those that ask for a page twice are exactly those in which an answer before the last was short |
| ReadPath.GrowingPageIsAskedTwice | crates/flock-vfs/src/read.rs:79-113 | a concrete changing source that is asked for one page twice by a read that succeeds |
| ReadPath.LazyRefinesEager | crates/flock-vfs/src/read.rs:1-29 | for a persisted head, a lazy read at any offset and length never fails, is that slice of the hydrated file, cut at its end, and faults exactly the pages the slice touches, once each |
| FlockFile.Pread | crates/flock-vfs/src/ffi.rs:218-254 | minus one for a negative offset or any refusal, otherwise the count, with the buffer written only where served |
| FlockFile.Handle.ReadAt | extension/flock-vfs/src/flock_file_system.cpp:181-210 | a positional read succeeds if and only if its one range read is not refused and the request lies inside the file, and the buffer then holds all of it; it fails as refused if and only if the range was or the signed offset is negative, and as an end of file if and only if the request runs past the end; signed offsets never overflow; the empty log refuses any positive read |
| FlockFile.ExactResultIff | extension/flock-vfs/src/flock_file_system.cpp:191-209 | against any source, an if-and-only-if for success, refusal and end of file, with how far it got |
| FlockFile.Handle.ReadNext | extension/flock-vfs/src/flock_file_system.cpp:212-225 | a sequential read moves the cursor by exactly what it returned, and not at all on failure |
| FlockFile.PositionalReadIsExact | extension/flock-vfs/src/flock_file_system.cpp:191-209 | over a persisted file it succeeds if and only if the whole request lies inside the file, with the file's bytes, and otherwise fails as an end of file |
| FlockFile.SequentialReadsJoin | extension/flock-vfs/src/flock_file_system.cpp:212-225 | successive sequential reads of any lengths join into one contiguous slice ending at the cursor; from a cursor past the end they return nothing and leave it there |
| FlockUri.ParseFlockUri | extension/flock-vfs/src/flock_file_system.cpp:43-103 | the scanning loops compute the parse function, error by error |
| FlockUri.ParsedIs | extension/flock-vfs/src/flock_file_system.cpp:43-103 | exactly what a path with a pool, a manifest and any query gives: the first required parameter that is missing or empty, a number that cannot be read or does not fit, or the fields; other parameters make no difference |
| FlockUri.ParsedRefuses | extension/flock-vfs/src/flock_file_system.cpp:44-63 | a path is refused as not a flock path if and only if the scheme is not there, and for lack of a query if and only if there is no `?` |
| FlockUri.NoManifestRefused | extension/flock-vfs/src/flock_file_system.cpp:67-70 | without a `/` before the query there is no manifest |
| FlockUri.PairIs | extension/flock-vfs/src/flock_file_system.cpp:79-83 | a pair is cut at its first `=`, and a piece without one is ignored |
| FlockUri.StoullIs | extension/flock-vfs/src/flock_file_system.cpp:100-101 | leading space, a sign and digits are read and what follows is ignored; past 64 bits is out of range, and a minus sign wraps |
| FlockUri.StoullRefuses | extension/flock-vfs/src/flock_file_system.cpp:100-101 | no digit there is no number |
| FlockUri.LaterWins | extension/flock-vfs/src/flock_file_system.cpp:75-88 | joining two query strings merges their parameters with the later one winning |
| FlockUri.SlashesDoNotMatter | extension/flock-vfs/src/flock_file_system.cpp:25-55 | any number of slashes after the scheme parses the same |
| FlockUri.ParsedIsWellFormed | extension/flock-vfs/src/flock_file_system.cpp:57-102 | whatever parses has no separator inside a field, nothing required empty and numbers that fit 64 bits |
| FlockUri.RoundTripsIff | extension/flock-vfs/src/flock_file_system.cpp:21-103 | parsing the documented form gives back the fields if and only if they are well formed |
| FlockUri.QueryDoesNotMatter | extension/flock-vfs/src/flock_file_system.cpp:105-115 | the existence probe without the query string gets the answer the full path gets |
| FlockUri.LogIsAbsent | extension/flock-vfs/src/flock_file_system.cpp:236-259 | the log sibling of any path is reported absent, with or without a query |
| FlockUri.IsWalPathIff | extension/flock-vfs/src/flock_file_system.cpp:105-115 | a path is a log if and only if it is some path and `.wal`, or that and a query |
| FlockUri.FileExistsIff | extension/flock-vfs/src/flock_file_system.cpp:236-259 | a path is present, with or without a query, if and only if the scheme is there and it does not end in `.wal` |
| FaultGates.StepKeeps | crates/flock-vfs/src/tiered.rs:95-141 | every step of every thread keeps: a gate is held by exactly the thread inside it, claims are the indices in order, every claimed page is settled or being worked on |
| FaultGates.WorkersAre | crates/flock-vfs/src/tiered.rs:114-141 | there are as many workers as pages, and never more than sixteen |
| FaultGates.StripesSpread | crates/flock-vfs/src/tiered.rs:27-32 | there are 1024 gates, and no two pages of one aligned stretch of that many share one |
| FaultGates.WaitsOnlyForItsGate | crates/flock-vfs/src/tiered.rs:95-103 | a thread that cannot move waits for a gate, and some thread is inside that very gate |
| FaultGates.OnePagePerFill | crates/flock-vfs/src/tiered.rs:43-58 | at the end of every run from the start, no two threads are between the cache check and the end of the fetch on pages that share a gate, so no page is ever filled by two at once |
| FaultGates.NoDeadlock | crates/flock-vfs/src/tiered.rs:98-103 | while any thread has not stopped, some thread can move |
| FaultGates.RunsAreBounded | crates/flock-vfs/src/tiered.rs:124-140 | every run is at most as long as the work in it, so none goes on for ever |
| FaultGates.StuckMeansDone | crates/flock-vfs/src/tiered.rs:125-140 | a run that cannot go on has stopped every worker: the prefetch returns |
| FaultGates.PrefetchWarms | crates/flock-vfs/src/tiered.rs:114-141 | over every interleaving with any readers, when the prefetch returns every index was claimed exactly once and every requested page the tier can serve is resident |
| FaultFetches.NeverCollidesIffAligned | crates/flock-vfs/src/tiered.rs:41-58 | no fetch ever loses its rename, over all readers and all runs, if and only if cold pages with equal content share a gate |
| FaultFetches.AliasedPagesCollide | crates/flock-vfs/src/tiered.rs:95-112 | with two pages of the same bytes some run makes a fetch lose its rename |
| FaultFetches.PrefetchFetchesColdOnce | crates/flock-vfs/tests/prefetch.rs:98-115 | when the prefetch returns, with readers reading only requested pages, the tier was asked for exactly the cold objects behind them, each once |
| FaultFetches.ColdObjectsAreColdPages | crates/flock-vfs/tests/prefetch.rs:100-108 | with distinct content behind distinct pages that count is the number of requested pages that started cold |
| FaultFetches.WarmReadsFetchNothing | crates/flock-vfs/tests/prefetch.rs:117-130 | once a set of pages is settled, any interleaving of reads of those pages asks the tier for nothing |
| FaultFetches.PrefetchedReadsFetchNothing | crates/flock-vfs/tests/prefetch.rs:117-130 | after any run at whose end the prefetch has returned, however readers of the requested pages go on, the tier is asked for nothing more |
| Scheduler.WarmSet.Learn | crates/flockd/src/scheduler.rs:53-65 | sorted insertion with binary search and a cap computes the learned set and keeps it sorted |
| Scheduler.LearnsFirsts | crates/flockd/src/scheduler.rs:25-65 | a warm set is the first 8192 distinct pages observed, and is saturated if and only if there were more |
| Scheduler.LearnSplits | crates/flockd/src/scheduler.rs:49-65 | splitting a trace changes nothing |
| Scheduler.RelearnIsNoop | crates/flockd/src/scheduler.rs:49-52 | learning any part of a trace again, from any state, is a no-op |
| Scheduler.WakeScheduler.Observe | crates/flockd/src/scheduler.rs:201-207 | one database's set learns the trace and every other database's is unchanged |
| Scheduler.WakeScheduler.Prewarm | crates/flockd/src/scheduler.rs:182-197 | the source is asked for exactly the learned pages, ascending, and nothing is learned from it |
| PageSources.RecordingSource.ReadPage | crates/flockd/src/scheduler.rs:144-147 | a fault through the recorder is recorded and answered by the source unchanged |
| PageSources.RecordingSource.Prefetch | crates/flockd/src/scheduler.rs:149-157 | a prefetch through the recorder is recorded page by page and forwarded unchanged |
| PageSources.RecordingSource.Touched | crates/flockd/src/scheduler.rs:112-123 | what was recorded, sorted and without repeats |
| PageSources.SteadyFetchesMore | crates/flock-vfs/src/tiered.rs:95-141 | asking a caching source for more pages fetches exactly the existing ones not asked for before |
| Scheduler.WakeTwice | crates/flockd/src/scheduler.rs:144-207 | record the reads of one wake, observe them, prewarm a cold caching source and replay them: the replay fetches exactly the existing pages the warm set does not hold, which is none while it is not saturated, and on a first observation those the cap dropped from the end of the sorted fault set; no other database learns anything |
| Pool.OpenDb | crates/flock-core/src/db.rs:53-86 | recovery comes before hydration: the handle holds the durable head and its file, and a new name the empty root |
| Pool.OpenedUnreadable | crates/flock-core/src/db.rs:53-86 | opening fails if and only if the recovered head does not hydrate, with that error, and by then the directory is there at that head |
| PoolRuns.NewNameOpensEmpty | crates/flock-core/src/db.rs:53-86 | a name with no directory opens at the empty root with no bytes, and is durable from then on |
| Pool.Db.Snapshot | crates/flock-core/src/db.rs:315-322 | the scratch file becomes pages, a manifest and a durable head, and fails exactly when a page of the old head cannot be read |
| Pool.Db.Fork | crates/flock-core/src/db.rs:364-416 | a taken name is refused before anything happens; a parent whose snapshot fails gives that error and no directory; otherwise the parent is snapshotted and a second durable head and a fresh handle are made at it |
| Pool.Db.Restore | crates/flock-core/src/db.rs:428-435 | an unknown manifest changes nothing; a known one moves the durable head first and then the scratch file |
| Pool.RestoredUnreadable | crates/flock-core/src/db.rs:428-435 | a restore to a known manifest with a page missing reports it, with the head already moved and the scratch file as it was |
| PoolRuns.StepKeeps | crates/flock-core/src/db.rs:53-435 | every step of any database, and a crash anywhere including inside a snapshot or a fork, keeps every manifest, head and promised snapshot whole in the shared store |
| PoolRuns.SnapshotsArePermanent | crates/flock-core/src/db.rs:418-435 | over every run of any number of databases, an id a snapshot ever returned hydrates to exactly the bytes it was taken of, and restoring to it puts them back |
| PoolRuns.RestoreFailsIff | crates/flock-core/src/db.rs:585-606 | a restore fails if and only if the pool has never seen the manifest, and then nothing moved |
| PoolRuns.StepIsIsolated | crates/flock-core/src/db.rs:339-350 | a step on one database leaves every other its head, its bytes and its session |
| PoolRuns.StepMovesHeadIff | crates/flock-core/src/db.rs:315-435 | exactly which steps move a database's durable head: a snapshot of a changed file that reached its commit record, its own or a fork's, or a restore to another known manifest; a refused fork, an unknown restore, an unchanged snapshot and one torn before its record do not |
| PoolRuns.SnapshotIsDurable | crates/flock-core/src/store.rs:189-199 | after any run none of whose steps moves this database's head, through any crashes, its own next snapshot's included, reopening gives back the snapshot's bytes at its id |
| PoolRuns.TornSnapshotIsAtomic | crates/flock-core/src/store.rs:9-23 | a crash inside a snapshot recovers to the new file if the commit record was durable and to the old one otherwise, never anything else |
| PoolRuns.UnchangedSnapshotIsFree | crates/flock-kernel/src/paging.rs:156-158 | a snapshot returns the head it started from if and only if the file is what the head says, and a second one always does |
| PoolRuns.ForkIsTheParent | crates/flock-core/src/db.rs:339-400 | a completed fork has the parent's snapshot head, durably, and the parent's bytes |
| PoolRuns.ForkFailsIff | crates/flock-core/src/db.rs:364-378 | in any pool a fork fails if and only if the name has a directory, and then nothing changes |
| PoolRuns.TornForkIsAtomicIff | crates/flock-core/src/db.rs:378-406 | a fork crashed at any point leaves no fork and a free name, or the parent's snapshot, if and only if the crash is outside the window between linking the directory and recording the head or there was nothing to lose; the parent keeps its snapshot |
| PoolRuns.TornForkLosesBytes | crates/flock-core/src/db.rs:382-404 | a run that loses a byte in that window |
| SleepClosure.Walk | crates/flock-core/src/db.rs:512-544 | the worklist terminates and finds exactly the manifests reachable by base and parent edges and every page any of them resolves to, or fails if and only if one is missing, naming one that does not resolve |
| SleepClosure.HistoryIsReachable | crates/flock-core/src/db.rs:503-511 | what is reachable from a head holds every manifest on the chain it resolves through and everything it descends from |
| SleepClosure.Sleep | crates/flock-core/src/db.rs:480-566 | the pool takes a snapshot and loses nothing; the sleep succeeds if and only if the closure is all there and the upload completes, and the bucket then holds what it held and every manifest and page the head can reach, with the pool's bytes; nothing is uploaded unless everything could be staged, and an upload that stops leaves exactly what had been sent, pages before manifests |
| SleepClosure.Wake | crates/flock-core/src/db.rs:124-155 | a store over the bucket alone, at the token's head, with a scratch file hydrated from it; it fails if and only if the head does not resolve or hydrate there |
| SleepClosure.SleepThenWake | crates/flock-core/src/db.rs:480-566 | composed over one bucket: a database put to sleep and woken has the bytes it had, at the snapshot's head, and restoring that head keeps them; it fails if and only if the snapshot does or the pool lost part of the head's history |
| SleepClosure.WokenAncestryIsIntact | crates/flock-core/src/db.rs:124-155 | after a wake the head and every ancestor resolve to the page map they had, with every page there, and hydrate to the same bytes |
| SleepRuns.SleepFindsEverything | crates/flock-core/src/db.rs:512-553 | in every run of a pool from nothing, the walk of a sleep misses no manifest and the staging no page |
| SleepRuns.UploadKeepsBacked | crates/flock-core/src/db.rs:559-561 | however an upload ends, every manifest in the bucket has all its pages there |
| SleepRuns.ResolvesAfterWakeIff | crates/flock-core/src/db.rs:503-511 | an id resolves after the wake if and only if its storage chain is in the bucket or the head's ancestry; in a bucket that was empty, if and only if it is in the head's ancestry |
| SleepRuns.SnapshotSurvivesSleepIff | crates/flock-core/src/db.rs:503-511 | any id a snapshot ever returned restores its bytes on the woken store if and only if it is in the ancestry of the head put to sleep or was in the bucket; otherwise the restore fails with an unknown snapshot and nothing moves |
| SleepRuns.RewoundIsNotAnAncestor | crates/flock-core/src/db.rs:418-427 | of two different commits on one head neither is in the other's ancestry |
| SleepRuns.DetourLosesASnapshot | crates/flock-core/src/db.rs:503-511 | snapshot, restore, snapshot, sleep: a run whose first id restores in the pool and is unknown after the wake |
| TreeCopy.CopyTree | crates/flock-cli/src/cmd/tier.rs:224-262 | copying a directory tree, recursively, is copying its files in listing order; a source that is no directory copies nothing |
| TreeCopy.CopiedTreeHas | crates/flock-cli/src/cmd/tier.rs:224-262 | under any path the destination ends with the file it had there, or else the file the tree has at that path |
| TreeCopy.ListingFinds | crates/flock-cli/src/cmd/tier.rs:224-262 | the listing of a tree has under a path exactly the file that following it down the directories reaches |
| TreeCopy.CopyFinds | crates/flock-cli/src/cmd/tier.rs:220-262 | under any name the destination ends with what it had, or else the first file listed under that name |
| TreeCopy.CopyCounts | crates/flock-cli/src/cmd/tier.rs:245-260 | the destination grew by exactly the count returned |
| Workspace.Branches | crates/flock-cli/src/workspace.rs:109-135 | the two listings give, once each and in string order, the names of sleep records, of directories without the suffix, and of those with it stripped |
| Workspace.LessIff | crates/flock-cli/src/workspace.rs:133-134 | string order: one name is before another if and only if it is a proper prefix of it or has the smaller character at the first difference |
| Workspace.ListedIff | crates/flock-cli/src/workspace.rs:109-132 | exactly which names are listed |
| Workspace.AscendingListingIsUnique | crates/flock-cli/src/workspace.rs:133-134 | there is only one such listing of a set of names, so the contract fixes the result |
| Workspace.ResolvesIff | crates/flock-cli/src/workspace.rs:137-163 | exactly which names resolve, including the effect of a directory named `*.json` |
| Workspace.JsonDirectoryMisleads | crates/flock-cli/src/workspace.rs:124-131 | with one directory `a.json`, `a.json` does not resolve and `a` does |
| TierLifecycle.StepKeeps | crates/flock-cli/src/cmd/tier.rs:35-150 | every file operation of sleep and wake, a crash between any two or inside the sleep's snapshot, and the loss of the pool's store while all is asleep leave every branch openable at its head or asleep with a tier that holds it |
| TierLifecycle.UploadArrives | crates/flock-core/src/db.rs:559-561 | an upload that has got so far has left in its tier what was there and everything it sent, and changed nothing else |
| TierLifecycle.CopiedIsAdopted | crates/flock-cli/src/cmd/tier.rs:128-134 | copying all of a cache's files, in whatever order they are listed, gives the pool's store what it had and the cache |
| TierRuns.StepMovesHeadIff | crates/flock-cli/src/cmd/tier.rs:65-69 | a step moves the head a branch stands for if and only if it is a commit, or a sleep's own snapshot that reached its record, of a file that is not what the head says |
| TierRuns.BranchSurvives | crates/flock-cli/src/cmd/tier.rs:65-69 | over any sequence of interrupted sleeps and wakes, its own included, a branch that is only written back as it was keeps its head and stays recoverable |
| TierRuns.UntouchedIsNotRewritten | crates/flock-cli/src/cmd/tier.rs:42-52 | a sleep writes back what opening hydrated, which is the file its head is, so by itself it moves nothing |
| TierRuns.WakeReachesTheHeadIff | crates/flock-cli/src/cmd/tier.rs:81-150 | a wake, first or after any crashes, ends awake at the branch's head if and only if the head recovery finds in its directory opens once the fetched cache is adopted; the whole state of the pool, the records and the tiers after it, either way |
| TierRuns.WakeCanFetch | crates/flock-cli/src/cmd/tier.rs:107-126 | there is always something for that wake to fetch: a sleeping branch's tier holds its head |
| TierRuns.CrashedRunWakes | crates/flock-cli/src/cmd/tier.rs:35-150 | from an empty pool, over any run of any commands crashed anywhere, every branch is openable at its head or asleep with a tier that holds it, and waking it again reaches that head if the pool's store was never lost, or if what is left of its directory is nothing, empty or at the record's head |
| TierRuns.InterruptedSleepWakes | crates/flock-cli/src/cmd/tier.rs:35-150 | from any moment of any run, through sleeps and wakes of the branch interrupted anywhere, waking it after a crash reaches the head it had at that moment if the pool's store was never lost, or if what is left of its directory is nothing, empty or at that head; in general exactly when what is left can be opened |
| LostStore.TornAndLostStaysAsleep | crates/flock-cli/src/cmd/tier.rs:136-143 | two commits, a sleep crashed while removing the directory and the loss of the pool's store: whatever the wake fetches, it does not bring the branch back |
| SleepAgain.SleepsIff | crates/flock-core/src/db.rs:512-553 | a branch that is awake and untouched can be uploaded if and only if its name resolves and the pool has every manifest and page of its head's history |
| SleepAgain.SleepsAgainIff | crates/flock-cli/src/cmd/tier.rs:128-143 | after a wake that is: every such manifest was in the pool or fetched, and every such page in the pool or in the head |
| LostStore.WokenCannotSleepAgain | crates/flock-cli/src/cmd/tier.rs:128-143 | two commits to one page, a sleep, the loss of the pool's store and a wake: the branch is awake at its head and cannot be put to sleep again |

## Left out

- The SQL engine, query results and export: executing SQL is an arbitrary replacement of the scratch file.
- Read and write errors of the operating system, and the cleanup after them: only the errors the code itself decides on are modelled.
- Sequence numbers, manifest heights and page numbers in the log are unbounded naturals; file offsets and lengths on the read path keep their 64-bit bounds.
- WalReader.Records: takes the segments already listed and sorted by number; listing the directory is not modelled.
- Replication.FollowerEqualsPrimary: a crash before a commit record leaves pages but no write records, since recovery of the log belongs to the page store, which is not part of this model; what leftover write records would do is `Runs.OrphanWritesShipTruthIff`. Every rewind writes its marker; one whose marker was lost is `LogHistory.InlineCheckpointChainsIff`.
- Garbage collection: no page or manifest is deleted during a run, except the pool's own store while no branch is awake (`TierLifecycle`).
- FaultFetches.PrefetchFetchesColdOnce: counts fetches the tier served; an object it cannot serve is an error and no fetch.
- FaultGates.PrefetchWarms: one prefetch call, with any number of readers beside it; a panic while holding a gate and retries inside the object store client are not modelled.
- Scheduler.WakeTwice: both sources answer from the same pages, always, which is what waking one head twice gives; the mutexes are not modelled, and the prefetch asks for its pages one after the other (the concurrent one is `FaultGates`).
- Pool.OpenDb: one handle per database; opening a name twice at once is not modelled, nor is the symlink layout or name validation.
- PoolRuns.SnapshotsArePermanent: for databases on local disk; a woken database's commits become durable by background upload, which is not modelled.
- SleepRuns.SnapshotSurvivesSleepIff: the bucket's manifests resolve in it to begin with, as they do after completed sleeps; which manifests an interrupted upload got to is not fixed, and then `SleepRuns.ResolvesAfterWakeIff` decides.
- SleepClosure.WokenAncestryIsIntact: a wake serves manifests and pages from the bucket alone; the local page cache of a woken store is in `FaultGates`.
- TierRuns.CrashedRunWakes: claims the head, not its ancestors, since only the head's pages are hydrated and adopted (`SleepAgain.SleepsAgainIff`). What is left of a directory being removed may recover to any head the pool ever recorded. Branches come into being by a first commit; the crash points of a fork are in `PoolRuns`.
- TierLifecycle.StepKeeps: recovery re-derives the manifest of the head it finds, from the log, and needs the manifests that one resolves through to be in the pool.
- FlockFile.Handle.ReadAt: opening a handle (refusing writes, the empty handle for a log path, the length probe) is a constructor that requires the length to fit a signed 64-bit value.
- TierLifecycle: a torn sleep record or a half-copied page file, the HEAD file, tier-directory checks and the pool's name; one command runs at a time.
- FlockUri: strings are sequences of characters; encodings and DuckDB's own path normalisation beyond slashes are not modelled.
- FlockFile.Pread: the caller's buffer is an array with room for the request; raw pointers and a negative byte count are not modelled.
- Failover, the Python bindings, the read-replica wrapper, argument parsing and rendering: they add no protocol of their own.
