# Koradest: replicated, ordered and verified state

A Dafny 4.11 model of the parts of Koradest that keep replicated, ordered or verified state, with proofs of what
they guarantee over whole runs. `dafny verify dfyconfig.toml` checks everything.

Each component is written twice. A specification function says what one step does to a state value; a class, or a
method with the loops of the source, changes its fields the way the source does and is proved to do exactly that step.
The theorems are then about every run of the specification: sequences of steps of any length, in any interleaving, with
messages lost, repeated, late or damaged, downloads that stall, renames that are tried again. A step that is not
possible changes nothing, so every sequence of steps is a run.

| File | What it models |
|---|---|
| `Crdt`, `CrdtLog`, `CrdtProtocol`, `CrdtGaps` | the operation log with sequence numbers and state vectors, merge and delta, replicas exchanging deltas over an unreliable network, and the gaps that damaged deltas leave |
| `Versions`, `VersionTexts` | version numbers, constraints and the marketplace's own update test, and what they mean as texts |
| `DependencyPlanner`, `PlannerSearch`, `PlannerTheorems`, `PlannerFirstVisits` | the depth-first installation planner, its search invariant, what a plan guarantees, and what the first visit of an application decides |
| `Store` | installing, changing and uninstalling applications, with installations that overlap or stop halfway |
| `AuditChain`, `MerkleRoot`, `AuditEngine` | the hash-chained audit log behind a sliding window, its exports, and the Merkle root |
| `OfflineSpool` | the message spool, whose pass walks a queue that others extend while it waits |
| `LanFetcher` | resumable download from several peers, verified before it is renamed into place |
| `WriteBehind` | debounced saves, the encryption queue, renames that retry over a shared temporary file, and the flush at shutdown |
| `Migrations` | the transactional schema upgrade and the step-by-step reconciliation agent |
| `LastWriterWins`, `PartialRows` | row exchange by modification time, and batches of rows that carry only some columns |
| `RevisionHistory` | revision diffs and their replay |
| `VersionArchive` | the package archive cut to the newest five versions |
| `FlightRecorder` | the ring buffer of recent events |
| `StableSorting`, `Filtering`, `Wrappers` | the stable sort and the filter that the source takes from its language, and optional values |

## How the outside world enters

- Hashes are function parameters. Nothing assumes they are injective: the tamper-evidence theorems conclude that two
  lists agree or exhibit two inputs that collide. Only `Crdt` uses a free term for the digest of an operation.
- A clock is a number passed with each step. A theorem that needs clocks not to go back says so; convergence does not.
- The network, the disk and the timers are steps and maps: what a peer replies, where a transfer stops, which write
  lands, which timer fires, are inputs of a run.
- Numbers are unbounded where the source has JavaScript numbers. Node identifiers stand for their rank in collation
  order, which is what the merge compares.

## What the code does not do

Where a property fails, a lemma shows an input and another gives the exact condition under which it holds.

- `README.md:67` and `docs/decisioni/002-kernel-e-app-store.md:26-31` say version constraints are respected. The
  planner checks a constraint only when it first meets an application (`backend/core/DependencyResolver.js:111`), so an
  ok plan can leave a dependency at a version that another constraint excludes: `ConstraintsNotAlwaysHonoured`, and with
  an old copy installed `InstalledCopyBreaksConstraint`. It honours every constraint exactly when each is met once the
  first visit of its application has decided (`HonouredByFirstVisits`); always when reachable constraints do not
  disagree about an installed copy or the catalogue's version (`UncontestedIsHonoured`), which on a fresh system is
  exact (`FreshPlanHonoursExactly`).
- `~` compares the second numbers of version and reference where present, and takes a missing one for different from
  zero: `~1` refuses 1.0.0, `~1.0` refuses 1 (`TildeMinds`). It means the interval up to the next minor version exactly
  for versions outside it or of the reference's shape (`TildeMeetsIntervalExactly`), and conjunctions are convex exactly
  when no `~` meets another shape (`ConvexExactly`).
- An uninstall is checked against what is installed when it starts, not against an installation under way or one that
  starts before the folder is removed: `OverlappingUninstallBreaksClosure`, `InstallAfterGateBreaksClosure`, with the
  exact condition in `RemoveExactly` and what must not happen in between in `GateHolds`.
- Installing again over an existing folder can end between its deletion and the rename: `LostFolderBreaksClosure`,
  `AdvanceExactly`.
- The planner reads the rows of the table, which outlive a folder lost in this way. It then keeps an application that is
  gone, and what depends on it is installed without it: `RowWithoutFolderBreaksClosure`, with the exact condition in
  `BeginExactly`, and `RowsKeepFolders` for runs that lose no folder.
- A flush while an older snapshot is being encrypted is overwritten when the answer arrives:
  `FlushOverWriteLosesASave`, `StepExactly`. Overlapping writes and retries alone lose nothing: `OrdinaryRunsAreSafe`.
- A provider that rejects without an error value aborts the spool pass and spools delivered messages again:
  `EmptyRejectionRedelivers`, `EmptyRejectionExactly`.
- A partial file that is already whole is never completed, because a peer answers 416 to the range request:
  `WholePartIsStuck`, `FailedRenameLeavesWhole`, `StallAfterLastByte`, `FullAnswerCompletes`.
- A damaged operation in the middle of a delta leaves a gap (`DamagedBatchGaps`), which no answer to a later request
  fills; it can still be filled exactly when a request from before, or a batch with the operation, is about
  (`GapPermanentExactly`). `DamagedRunLeavesGap` is a run with a gap, filled at first and permanent in the end.
- An audit export for one actor is reported as broken when other records lie between: `ActorExportCanFail`,
  `ExportOfRunExactly`.
- A Merkle root does not commit to how many leaves there are: `RepeatedLastLeafSameRoot`, `SixAndEight`. Which lists
  share one is stated by `RootsAgreeExactly`.
- Rows that carry only some columns can end up different in different orders: `PartialRowsDepend` for two rows on any
  table, `BatchOrderExactly` for whole batches, `OrderMatters` for an example.
- A stop between two migrations of one version leaves the second out for good: `EqualVersionsAreSkipped`; what is
  pending after a stop is the rest exactly when the versions on its two sides differ (`PendingAfter`).
- Two versions whose names differ only in replaced characters share one file in the archive, so that the first is no
  longer read back: `SharedFileLosesVersion`, with `SignsCollide` for an example and `NamesCollideExactly` for the
  condition.
- A history does not rebuild a field that is named like a member of every object, was held once and is gone:
  `GoneFieldShowsMember`, `RoundTripExactly`.

## Model

| member | source | states |
|---|---|---|
| `StableSorting.SortStable` | backend/db/crdtEngine.js:87-92 | for any total preorder the sort returns an ordered list in which elements that compare equal keep the order they had |
| `StableSorting.SameElements` | backend/db/crdtEngine.js:87-92 | sorting keeps exactly the elements |
| `StableSorting.StrictlySortedUnique` | backend/db/crdtEngine.js:87-92 | two strictly ascending lists over the same elements are one list |
| `Filtering.SortFiltered` | backend/agents/SchemaReconciliationAgent.js:68-69 | filtering before or after the stable sort comes to the same |
| `Crdt.CrdtEngine.CreateOperation` | backend/db/crdtEngine.js:26-50 | the new operation takes the node's next number, hashes to its own hash, is appended to the log, and the vector moves to it |
| `Crdt.CrdtEngine.MergeOperations` | backend/db/crdtEngine.js:62-99 | the loop takes exactly the genuine operations with a new identifier, raises the vector only upwards, sorts the log, and returns the operations taken |
| `Crdt.CrdtEngine.GetOpsSince` | backend/db/crdtEngine.js:114-130 | the loop returns the operations beyond the peer's vector, in log order |
| `CrdtLog.AcceptedIsAdded` | backend/db/crdtEngine.js:65-85 | what a merge reports as applied is exactly what it adds behind the old log |
| `CrdtLog.AcceptsNewKeys` | backend/db/crdtEngine.js:69-73 | between replicas whose operations agree, an operation is taken exactly when its node and number are new |
| `CrdtLog.AbsorbAllTakes` | backend/db/crdtEngine.js:65-85 | absorbing a delta adds its keys and nothing else, keeps keys distinct and ties in numbering order, and the vector names each node's greatest number |
| `CrdtLog.SortKeepsLog` | backend/db/crdtEngine.js:87-92 | the sort by time and node leaves the log strictly ordered by (time, node, number) |
| `CrdtLog.OpsSinceKeepsLog` | backend/db/crdtEngine.js:114-130 | a delta is a good log itself and holds exactly what the peer has not seen |
| `CrdtProtocol.MergeCleanBatch` | backend/db/crdtEngine.js:62-99 | merging a delta leaves no gap and raises the vector to the pointwise maximum with the sender's |
| `CrdtProtocol.HurtIsRefused` | backend/db/crdtEngine.js:52-72 | an operation of which anything changed under its hash, or whose hash is missing, is neither reported as applied nor stored, and the vector stays |
| `CrdtProtocol.DamagedExactly` | backend/db/crdtEngine.js:52-72 | of a batch hashed by its makers exactly the operations are refused whose hash is lost, whose fields or hash changed alone, or whose hash is not that of their fields |
| `CrdtProtocol.DamagedBatchGaps` | backend/db/crdtEngine.js:69-78 | a delta with damaged operations leaves the log without gaps if and only if each survivor precedes every new damaged operation of its node |
| `CrdtProtocol.StepExactly` | backend/db/crdtEngine.js:26-130 | a step of creating, asking, answering, losing messages or delivering, possibly damaged, keeps the whole system good if and only if it is not a delivery in which an operation survived behind a new one of its node that was damaged |
| `CrdtProtocol.EveryRunGapFree` | backend/db/crdtEngine.js:26-130 | in every run of such steps, in any order and number, each log holds exactly the operations 1..vector[n] of every node, each once, all genuine |
| `CrdtProtocol.UndamagedRunsAreHarmless` | backend/db/crdtEngine.js:62-130 | runs in which batches arrive as sent, lost, repeated, late or reordered, are among them |
| `CrdtProtocol.DeliveryReachesSender` | backend/db/crdtEngine.js:62-85 | whenever a batch arrives whole, however late, the receiver's vector becomes the maximum of its own and the one the sender had |
| `CrdtProtocol.Convergence` | backend/db/crdtEngine.js:62-99 | in those runs two replicas that have just merged and have equal vectors hold the same log, element by element, whatever their clocks did |
| `CrdtGaps.EveryRunFine` | backend/db/crdtEngine.js:26-130 | in every run at all, damaged deliveries included, a log holds each operation at most once and only ones its maker made, the vector names the greatest of each node, and no node misses an operation of its own |
| `CrdtGaps.GapPermanentExactly` | backend/db/crdtEngine.js:69-78 | an operation that a vector claims and the log lacks can enter it in some continuation if and only if a request that node sent before its vector claimed it, or a batch that carries it, is still about; no answer to a later request brings it |
| `CrdtGaps.DamagedRunLeavesGap` | backend/db/crdtEngine.js:69-83 | a run of five steps in which the first of two operations arrives damaged leaves a gap that can be filled while the request is about, and never once the messages are lost |
| `Versions.CompareParts` | backend/core/DependencyResolver.js:46-54 | the loop over three positions returns the sign of the lexicographic order |
| `Versions.CompareVersions` | backend/core/DependencyResolver.js:38-54 | the comparison of two version texts is that of their number triples |
| `Versions.ComparisonIsTotalPreorder` | backend/core/DependencyResolver.js:46-54 | antisymmetric in sign, transitive, zero exactly on equal triples |
| `VersionTexts.ThreeNumbers` | backend/core/DependencyResolver.js:38-44 | a version of three decimal numbers joined by dots, with anything but a digit behind them, has those three numbers |
| `VersionTexts.FewerNumbers` | backend/core/DependencyResolver.js:38-54 | missing numbers count as zero in the comparison, and a version of one number has no second one |
| `VersionTexts.PrefixIgnored` | backend/core/DependencyResolver.js:39-40 | one leading v or V makes no difference |
| `VersionTexts.WordsAreZero` | backend/core/DependencyResolver.js:43 | a component that does not start with a digit counts as zero |
| `VersionTexts.WordsMean` | backend/core/DependencyResolver.js:56-73 | for every version and reference, by the text of the constraint: `>=`, `>`, `<=`, `<`, `=` and no operator admit the versions whose numbers are at least, above, at most, below or equal to the reference's |
| `VersionTexts.RangeWordsMean` | backend/core/DependencyResolver.js:56-71 | `^` in front of a reference admits what is at least the reference with its first number, `~` with its first and second |
| `VersionTexts.OperatorsRead` | backend/core/DependencyResolver.js:57-60 | each of the seven operators and none is read as itself in front of a reference, with or without a v between them |
| `VersionTexts.OtherWordsRefuse` | backend/core/DependencyResolver.js:57-58 | a word that any version satisfies is one of these operators, perhaps a v, and a reference |
| `VersionTexts.References` | backend/core/DependencyResolver.js:57 | one, two and three runs of digits joined by dots are references |
| `VersionTexts.NoReferences` | backend/core/DependencyResolver.js:57 | four numbers, no number and a missing last number are not |
| `VersionTexts.OneWordConstraint` | backend/core/DependencyResolver.js:75-80 | a constraint of one word admits exactly the versions, none of them absent, that satisfy the word |
| `VersionTexts.Conjunction` | backend/core/DependencyResolver.js:79 | two words with a blank between them admit what both admit |
| `VersionTexts.BlanksAround` | backend/core/DependencyResolver.js:76 | a blank in front of a constraint or behind it makes no difference |
| `VersionTexts.WildcardsAdmitAll` | backend/core/DependencyResolver.js:76-77 | an empty constraint, a star, and latest in any mixture of small and capital letters admit every version and an absent one |
| `Versions.CaretAndTildeIntervals` | backend/core/DependencyResolver.js:56-73 | `^` admits exactly the half-open interval up to the next major version; `~` admits of the one up to the next minor exactly the versions that have a second number just when the reference has |
| `Versions.TildeMeetsIntervalExactly` | backend/core/DependencyResolver.js:62-70 | `~` means its interval for a version if and only if the version is outside it or of the reference's shape |
| `Versions.TildeMinds` | backend/core/DependencyResolver.js:62-70 | `~1` refuses 1.0, `~1.0` refuses 1, for every digit, though the versions compare equal |
| `Versions.ConvexExactly` | backend/core/DependencyResolver.js:56-80 | a version between two that satisfy a whitespace-separated conjunction satisfies it if and only if the conjunction has no `~` or the version has their shape |
| `Versions.HasUpdate` | backend/handlers/store_marketplace.js:190-206 | the marketplace loop says yes exactly when, at the first position where the padded number lists differ, the remote one is greater |
| `VersionTexts.ParseIntReads` | backend/handlers/store_marketplace.js:190-206 | each component of the marketplace's lists is the decimal number at its start, with its sign, whatever follows |
| `Versions.UpdateTestAgrees` | backend/handlers/store_marketplace.js:190-206 | on dotted numerals of at most three parts that test is the resolver's comparison |
| `DependencyPlanner.Planner.Visita` | backend/core/DependencyResolver.js:104-147 | the recursive search that mutates the shared lists performs the specified search; it terminates because what is neither stacked nor completed shrinks |
| `DependencyPlanner.Planner.Espandi` | backend/core/DependencyResolver.js:140-146 | pushing, visiting every declared dependency in turn and popping performs the specified expansion |
| `DependencyPlanner.PianificaInstallazione` | backend/core/DependencyResolver.js:94-157 | the plan returned is the specified one |
| `DependencyPlanner.CanUninstall` | backend/core/DependencyResolver.js:188-200 | the gate opens exactly when no other installed application declares a dependency, and reports the ones that do, in order |
| `PlannerSearch.SearchedGood` | backend/core/DependencyResolver.js:94-157 | the invariant of the whole search: stack is a path, order and completed set agree, every entry is justified, every report is true |
| `PlannerTheorems.OkPlanIsTopological` | backend/core/DependencyResolver.js:94-157 | an ok plan has no duplicates, ends with the target, holds only reachable catalogue entries, and each dependency of each entry is core, strictly earlier, or an acceptable installed application |
| `PlannerTheorems.CoreIsNeverPlanned` | backend/core/DependencyResolver.js:8-20 | an ok plan holds its target exactly when that is not named core, anagrafica, with the prefix `core:`, or not at all, and never holds such a module |
| `PlannerTheorems.ReportsAreTrue` | backend/core/DependencyResolver.js:106-138 | every reported cycle is a closed path of declared dependencies, every missing entry is required and absent, every incompatibility is a constraint that neither the catalogue's nor the installed version meets |
| `PlannerTheorems.CyclesExact` | backend/core/DependencyResolver.js:104-147 | a cycle is reported if and only if the applications followed contain one |
| `PlannerTheorems.SearchEffort` | backend/core/DependencyResolver.js:104-147 | each catalogue entry is expanded at most once, and the calls number one plus the dependencies of the expanded entries, at most one plus all declared ones |
| `PlannerFirstVisits.CallsCounted` | backend/core/DependencyResolver.js:104-147 | the list of calls in the order they are made has as many as the search counts |
| `PlannerFirstVisits.FirstVisitHolds` | backend/core/DependencyResolver.js:111-138 | in an ok plan the first call for a dependency was made for a planned application that declares it, its constraint holds of the version the dependency will have, and the dependency is planned exactly when that constraint does not accept the installed copy |
| `PlannerFirstVisits.HonouredByFirstVisits` | backend/core/DependencyResolver.js:111-138 | an ok plan honours every declared constraint if and only if each is met by the installed copy where the first one kept it, by the catalogue's version where it did not |
| `PlannerTheorems.ConstraintsHonouredExactly` | backend/core/DependencyResolver.js:111-138 | an ok plan honours every declared constraint if and only if no two of them disagree about the version an application will have |
| `PlannerTheorems.UncontestedIsHonoured` | backend/core/DependencyResolver.js:111-138 | whatever is installed, it does when no two constraints reachable from the target disagree about the installed copy or the catalogue's version |
| `PlannerTheorems.OneConstraintPerApplication` | backend/core/DependencyResolver.js:111-138 | it does when each application is asked for under one constraint |
| `PlannerTheorems.FreshPlanIsReachable` | backend/core/DependencyResolver.js:94-157 | with nothing installed an ok plan is exactly what is reachable from the target |
| `PlannerTheorems.FreshPlanHonoursExactly` | backend/core/DependencyResolver.js:111-138 | with nothing installed that condition is exact |
| `PlannerTheorems.ConstraintsNotAlwaysHonoured` | backend/core/DependencyResolver.js:111 | a catalogue of three applications whose ok plan breaks a declared constraint |
| `PlannerTheorems.InstalledCopyBreaksConstraint` | backend/core/DependencyResolver.js:111-120 | an installed copy that the first constraint keeps and a later one does not accept, though the catalogue's versions satisfy all of them |
| `Store.StoreHandler.Install` | backend/handlers/store.js:81-111 | planning reads the table's rows; a plan that is not ok changes no folder; otherwise its entries are placed in order up to the first failure, the report lists the ones placed, disk and rows are those of the run of steps that begins, places, records and perhaps fails, and the installed set stays closed if and only if the dependencies of what was placed are on disk or were placed and no folder that something needs was deleted and not replaced |
| `Store.StoreHandler.InstallaPiano` | backend/handlers/store.js:99-111 | the loop places the planned applications in order, writes the row of each, and stops at the first that fails, with the same condition for the installed set |
| `Store.StoreHandler.InstallaSingola` | backend/handlers/store.js:197-228 | an existing folder is deleted before the new one is renamed into its place, the row is written after that with the manifest's version or 0.0.0, and a failure can come before, between or after |
| `Store.StoreHandler.InstallaVersione` | backend/handlers/store.js:401-414 | an application with a row, whether or not its folder is there, gets the given manifest, and the installed set stays closed if and only if the new manifest's dependencies are on disk, or, when only the old folder was deleted, nothing needs the application |
| `Store.StoreHandler.Uninstall` | backend/handlers/store.js:313-323 | the gate opens exactly when nothing installed depends on the application, and reports the blockers otherwise |
| `Store.StoreHandler.FinishUninstall` | backend/handlers/store.js:336-346 | the removal takes the folder and the row away, and the installed set stays closed if and only if by then nothing needs the application |
| `Store.StoreHandler.GetInstalledRows` | backend/handlers/store_marketplace.js:53-81 | every folder with a version is listed under that version, one without keeps its row's version or gets 1.0.0, rows whose folder is gone are unchanged, and nothing else is listed |
| `Store.PlanSupportedExactly` | backend/handlers/store.js:85-97 | every entry of an ok plan finds its dependencies on disk or earlier in the plan if and only if the installed copies that the plan keeps have their folders |
| `Store.KeptFolderFits` | backend/handlers/store.js:85-97 | an application whose folder is there is kept by an ok plan only if the version in the folder satisfies a constraint that something in the plan declares |
| `Store.BeginExactly` | backend/handlers/store.js:85-97 | planning an installation keeps the installed set closed and every installation under way supported if and only if the installed copies that its plan keeps have their folders |
| `Store.AdvanceExactly` | backend/handlers/store.js:99-109 | placing one application keeps the installed set closed and every installation under way supported if and only if it does not lose the old folder of an application that something installed needs or something under way relies on |
| `Store.ChangeVersionExactly` | backend/handlers/store.js:401-414 | the invariant survives a version change if and only if the new dependencies are on disk, or nothing would miss the application if only its old folder is deleted; its row may have outlived its folder |
| `Store.RemoveExactly` | backend/handlers/store.js:336-346 | the invariant survives a removal if and only if at that moment nothing installed needs the application and no installation under way relies on it |
| `Store.GateHolds` | backend/handlers/store.js:313-346 | what the gate found, and that no installation relies on the application, stays true until the removal if in between nothing starts that counts on it, places it or changes to a version that declares it |
| `Store.StepExactly` | backend/handlers/store.js:72-346 | any step of planning, placing, changing a version, writing a row, gate or removal keeps the invariant if and only if it meets the condition for its kind |
| `Store.CarefulRunsStayClosed` | backend/handlers/store.js:72-346 | any interleaving of installations, version changes and uninstalls that meet the conditions keeps the installed set closed |
| `Store.FixedCatalogueRunsStayClosed` | backend/handlers/store.js:81-111 | with fixed dependencies every run keeps the installed set closed in which nothing is taken away that something would miss and plans and version changes meet no row without its folder that they need |
| `Store.RowsKeepFolders` | backend/handlers/store_marketplace.js:53-81 | in runs that lose no folder between deletion and rename every row keeps its folder, so that every start of an installation meets its condition |
| `Store.OverlappingUninstallBreaksClosure` | backend/handlers/store.js:313-346 | an uninstall between a plan and its execution leaves an application without its dependency |
| `Store.InstallAfterGateBreaksClosure` | backend/handlers/store.js:315-346 | so does an installation between the gate of an uninstall and its removal |
| `Store.LostFolderBreaksClosure` | backend/handlers/store.js:197-201 | so does an installation over an existing folder that fails between its deletion and the rename |
| `Store.RowWithoutFolderBreaksClosure` | backend/handlers/store.js:85-201 | a reinstall that loses the folder of an application nothing needs meets all conditions, and its row then makes the planner install another without the dependency |
| `AuditChain.VerifyIntegrity` | backend/observability/MatterAuditEngine.js:135-183 | the loop accepts exactly the lists whose hashes recompute and whose links connect, and otherwise names the first entry that fails and how |
| `AuditEngine.MatterAuditEngine.RecordEvent` | backend/observability/MatterAuditEngine.js:76-117 | the entry continues the chain and is the newest in the window, which never exceeds its limit |
| `AuditEngine.MatterAuditEngine.Clear` | backend/observability/MatterAuditEngine.js:247-256 | clearing starts a new chain |
| `AuditEngine.MatterAuditEngine.ExportGdprRegister` | backend/observability/MatterAuditEngine.js:209-228 | the export holds in order exactly the records in the window stamped from the lower to the upper date, both included, of the actor asked for or of any; with the verdict of their verification and the Merkle root of their hashes |
| `AuditChain.EntriesChained` | backend/observability/MatterAuditEngine.js:76-112 | what is recorded since the last clear is one chain from the genesis hash, numbered from one |
| `AuditChain.WindowOfChain` | backend/observability/MatterAuditEngine.js:76-117 | in every run the records in memory are the newest 5000 of that chain, and sequence and last hash are those of its end |
| `AuditChain.EveryWindowVerifies` | backend/observability/MatterAuditEngine.js:114-183 | every reachable window and every contiguous slice of it passes verification, also after old records are shifted out |
| `AuditChain.SameEndSameHistory` | backend/observability/MatterAuditEngine.js:135-183 | two lists that pass and end in the same hash agree on their common-length suffix, or contain two contents with one digest |
| `AuditChain.ExportVerifiesExactly` | backend/observability/MatterAuditEngine.js:209-217 | a selection from a chain verifies if and only if it leaves out nothing between two records it holds |
| `AuditChain.DateExportVerifies` | backend/observability/MatterAuditEngine.js:209-217 | under a clock that does not go back an export by dates always verifies |
| `AuditChain.RangesAdjoin` | backend/observability/MatterAuditEngine.js:209-215 | under such a clock the exports of two adjoining date ranges, joined, are the export of the whole range |
| `AuditChain.ExportOfRunExactly` | backend/observability/MatterAuditEngine.js:209-217 | an export of any reachable window verifies if and only if its query selects a contiguous part |
| `AuditChain.ActorExportCanFail` | backend/observability/MatterAuditEngine.js:211-217 | an export for one of two alternating actors does not verify |
| `MerkleRoot.CalculateMerkleRoot` | backend/observability/MatterAuditEngine.js:185-207 | the level loop terminates and returns the root of the recursive tree in which a missing right half repeats the left one |
| `MerkleRoot.NextLevel` | backend/observability/MatterAuditEngine.js:193-199 | the inner loop joins neighbours in pairs, a last one with itself |
| `MerkleRoot.RootOfRecords` | backend/observability/MatterAuditEngine.js:187-203 | the leaves are the records' hashes, or digests of records without one |
| `AuditEngine.LeavesAreHashes` | backend/observability/MatterAuditEngine.js:190 | the leaves of hashed records are exactly their hashes |
| `MerkleRoot.TreeOfLevel` | backend/observability/MatterAuditEngine.js:192-201 | one level up, the tree of one level less has the same root |
| `MerkleRoot.RootCommitsToLeaves` | backend/observability/MatterAuditEngine.js:185-207 | equally many leaves with equal roots are equal leaves, or two different texts hashed on the way collide |
| `AuditEngine.SameRootSameRecords` | backend/observability/MatterAuditEngine.js:185-218 | two exports of equally many hashed records with one root hold the same records, or two different contents or texts collide |
| `MerkleRoot.TreesAgreeExactly` | backend/observability/MatterAuditEngine.js:192-203 | trees of one height agree exactly when the leaves do after every missing half is filled by a copy of the half beside it, or two pairs they join clash |
| `MerkleRoot.RootsAgreeExactly` | backend/observability/MatterAuditEngine.js:185-207 | for any two lists: they share a root exactly when the shorter, filled up, is the other's level at its height, filled up, or two pairs they join clash |
| `MerkleRoot.RepeatedLastLeafSameRoot` | backend/observability/MatterAuditEngine.js:196 | an odd list of three or more and the one repeating its last leaf have one root |
| `MerkleRoot.SixAndEight` | backend/observability/MatterAuditEngine.js:196 | so have six leaves and the eight that repeat the last two |
| `MerkleRoot.UnevenLeavesSameRoot` | backend/observability/MatterAuditEngine.js:190-197 | leaves that are not digests of one length can share a root without any collision |
| `OfflineSpool.CommunicationGateway.FinishSend` | backend/infrastructure/CommunicationGateway.js:65-109 | case by case: a message accepted at once is never queued, a refused or throwing one is queued exactly when queueOnFailure, one without provider exactly when queueIfUnavailable, one rejected without error value never; the caller is told accordingly |
| `OfflineSpool.CommunicationGateway.StartPass` | backend/infrastructure/CommunicationGateway.js:119-127 | a pass starts exactly when none is running and the queue is not empty |
| `OfflineSpool.CommunicationGateway.HandleReply` | backend/infrastructure/CommunicationGateway.js:129-152 | one item is delivered, kept, kept with one more attempt, dropped at five, or aborts the pass |
| `OfflineSpool.CommunicationGateway.FinishPass` | backend/infrastructure/CommunicationGateway.js:154-156 | the queue becomes what the pass kept, and the counts are returned |
| `OfflineSpool.StepExactly` | backend/infrastructure/CommunicationGateway.js:65-161 | a step keeps the books and the pass in order if and only if it is not a rejection without error value that comes after the pass let an item go, or at the item's last attempt |
| `OfflineSpool.RunsConserve` | backend/infrastructure/CommunicationGateway.js:65-161 | from any good state, in every run of such steps, with sends interleaved at the waits of a pass, every message handed over stays exactly one of sent at once, given back as failed, delivered by a pass, dropped at five attempts, or spooled in order with one to four attempts |
| `OfflineSpool.EveryMessageHasOneFate` | backend/infrastructure/CommunicationGateway.js:65-157 | the same from the empty spool; in particular no message is sent at once and delivered by a pass, or delivered twice |
| `OfflineSpool.PassCountsItsDeliveries` | backend/infrastructure/CommunicationGateway.js:127-156 | what a pass counts as processed is what was delivered during it, whatever is sent meanwhile |
| `OfflineSpool.EmptyRejectionExactly` | backend/infrastructure/CommunicationGateway.js:146-161 | a rejection without error value keeps the spool consistent if and only if the pass had kept every item so far and the item is not at its last attempt |
| `OfflineSpool.EmptyRejectionRedelivers` | backend/infrastructure/CommunicationGateway.js:146-161 | after such a rejection a delivered message is spooled again |
| `LanFetcher.LanUpdateFetcher.ScaricaPezzo` | backend/core/lanUpdateFetcher.js:84-169 | by reply: the partial file is appended to, restarted or left, and the transfer is complete, stalled, failed or absent |
| `LanFetcher.LanUpdateFetcher.ScaricaDaPari` | backend/core/lanUpdateFetcher.js:171-199 | a complete transfer is verified, then renamed; one that does not verify is deleted |
| `LanFetcher.LanUpdateFetcher.ScaricaDallaRete` | backend/core/lanUpdateFetcher.js:201-244 | a verified destination is kept without asking anyone; otherwise the candidates are tried in turn and the first success is reported |
| `LanFetcher.DestinationSafe` | backend/core/lanUpdateFetcher.js:171-244 | for any peers at all the destination is left, removed or written with bytes that match the hash, and success implies a match |
| `LanFetcher.EachTriedOnce` | backend/core/lanUpdateFetcher.js:213-222 | each address and port is tried at most once, and a failed fetch has tried every candidate that has an address |
| `LanFetcher.PartStaysPrefix` | backend/core/lanUpdateFetcher.js:84-169 | when the peers hold one package, the partial file is a prefix of it after any sequence of stalls, restarts and resumes |
| `LanFetcher.HonestPieceKeepsPrefix` | backend/core/lanUpdateFetcher.js:103-145 | one reply keeps the partial file a prefix, and a resumed one keeps what was there |
| `LanFetcher.FullAnswerCompletes` | backend/core/lanUpdateFetcher.js:84-122 | a peer that answers in full completes the download if and only if the partial file is not already whole |
| `LanFetcher.CompleteExactly` | backend/core/lanUpdateFetcher.js:117-153 | from a peer that declares the true length a transfer counts as complete if and only if it closed with the whole package in the partial file; one that closed short counts as stalled |
| `LanFetcher.WholePartIsStuck` | backend/core/lanUpdateFetcher.js:84-122 | with a whole partial file no number of such peers completes it |
| `LanFetcher.FailedRenameLeavesWhole` | backend/core/lanUpdateFetcher.js:171-199 | a verified download whose rename fails leaves such a file and no destination |
| `LanFetcher.StallAfterLastByte` | backend/core/lanUpdateFetcher.js:124-132 | a stall after the last byte, while it is being written, leaves one too |
| `WriteBehind.DatabaseManager.SaveDatabase` | backend/db/db_manager.js:274-311 | an immediate save disarms the timer and sends a snapshot to the encryption thread, another one marks the domain and arms a timer unless one is armed |
| `WriteBehind.DatabaseManager.TimerFires` | backend/db/db_manager.js:293-301 | the timer is disarmed and a dirty domain's write started |
| `WriteBehind.DatabaseManager.Encrypted` | backend/db/db_manager.js:219-254 | the answer for the oldest request is written to the temporary file and moved over the database file, or waits, or ends |
| `WriteBehind.DatabaseManager.RetryRename` | backend/db/db_manager.js:238-257 | a write that waited moves whatever the temporary file holds by then, or ends if it is gone |
| `WriteBehind.DatabaseManager.FlushAll` | backend/db/db_manager.js:328-353 | the loop writes every open database, and no timer and no dirty mark is left |
| `WriteBehind.StepExactly` | backend/db/db_manager.js:216-353 | a step keeps every accepted save behind a timer or about to land if and only if it is not a flush whose writes are overwritten by something under way that is older than the last accepted save, or a write that fails for good while that save is neither on disk, nor behind a timer, nor in a later write |
| `WriteBehind.LandsIsOutcome` | backend/db/db_manager.js:216-257 | whatever order answers and retries come in, each file ends with the last snapshot sent, else with the temporary file a rename waits for, else as it was |
| `WriteBehind.NoLostSave` | backend/db/db_manager.js:216-353 | in every run of such steps dirty domains are the armed timers, and with no timer armed, no snapshot being encrypted and no rename waiting the disk holds every accepted save |
| `WriteBehind.OrderExactly` | backend/db/db_manager.js:216-353 | from the file over the temporary file to the queue versions stay in order if and only if a step is not a flush with something older than the memory under way |
| `WriteBehind.OrdinaryRunsAreSafe` | backend/db/db_manager.js:216-311 | every run without flushes and final failures is such a run, however writes of one domain overlap, wait and share the temporary file |
| `WriteBehind.FilesGoForward` | backend/db/db_manager.js:216-353 | in every run whose flushes find nothing older than the memory under way no file ever goes back to an older snapshot, whatever fails |
| `WriteBehind.FlushOverWriteLosesASave` | backend/db/db_manager.js:328-353 | a flush while an older snapshot is being encrypted ends with that one on disk and nothing pending |
| `Migrations.SqlJsAdapter.RunMigrations` | backend/db/SqlJsAdapter.js:76-112 | the loop in one transaction applies everything pending in ascending order and sets the version of the last, or leaves the database as it was |
| `Migrations.SchemaReconciliationAgent.ReconcileDomain` | backend/agents/SchemaReconciliationAgent.js:59-84 | one visit applies pending steps one by one up to the first that fails and reports their versions |
| `Migrations.SchemaReconciliationAgent.RunSteps` | backend/agents/SchemaReconciliationAgent.js:71-84 | after the loop schema, version and report are those of the steps that succeeded |
| `Migrations.AllOrNothing` | backend/db/SqlJsAdapter.js:89-108 | a failed upgrade changes nothing; a successful one ends at or above every migration's version with every pending one applied |
| `Migrations.Idempotent` | backend/db/SqlJsAdapter.js:85-108 | upgrading again changes nothing |
| `Migrations.StagedEqualsAtOnce` | backend/db/SqlJsAdapter.js:85-108 | going through an earlier release succeeds if and only if going at once does, and ends in the same database |
| `Migrations.PendingAfter` | backend/agents/SchemaReconciliationAgent.js:68-75 | for any migrations: after the first k pending ones every other is still pending, and nothing else, if and only if the k-th version is below the next |
| `Migrations.TicksApplyPrefix` | backend/agents/SchemaReconciliationAgent.js:59-84 | any number of visits that do not stop between two migrations of one version, the last however it stops, applies an ascending prefix without skips or repeats and reports exactly it |
| `Migrations.DistinctIsClean` | backend/agents/SchemaReconciliationAgent.js:68-84 | with distinct versions no visit stops there |
| `Migrations.TicksReachUpgrade` | backend/agents/SchemaReconciliationAgent.js:59-84 | once nothing is pending the database is the one the transactional upgrade produces, if both run each pending migration to one effect |
| `Migrations.EqualVersionsAreSkipped` | backend/agents/SchemaReconciliationAgent.js:68-75 | of two pending migrations with one version, a stop after the first leaves the second out, whatever visits follow |
| `LastWriterWins.RowStore.UpsertRows` | backend/db.js:109-146 | the loop inserts unknown rows over the schema's defaults and lets strictly newer ones overwrite their columns; the batch is saved only if some row is new or newer |
| `LastWriterWins.RowStore.GetRowsSince` | backend/db.js:99-107 | exactly the rows modified after the time are returned |
| `LastWriterWins.TablesStayFull` | backend/db.js:116-140 | rows that carry only some columns too leave every stored row with all columns of the schema, so what a peer reads back is full |
| `LastWriterWins.OrderDoesNotMatter` | backend/db.js:116-140 | batches with the same rows, in any order and with repeats, leave the same table: each identifier's newest row and nothing else |
| `LastWriterWins.PullCompletes` | backend/db.js:99-146 | who dominates a peer up to a time and upserts its rows since then dominates all of it |
| `LastWriterWins.TwoPullsConverge` | backend/db.js:99-146 | one pull in each direction makes two tables equal |
| `PartialRows.PartialRowsDepend` | backend/db.js:119-135 | on any table two rows of one identifier commute if and only if the older cannot be written, or each column that only it carries has its value already in what is stored, or in the schema's defaults if nothing is |
| `PartialRows.BatchOrderExactly` | backend/db.js:116-140 | all orders of a batch leave one table if and only if, for each identifier, every row that can be written yields in this way to the newest |
| `PartialRows.SettledAnyOrder` | backend/db.js:116-140 | then repeats make no difference either |
| `PartialRows.OrderMatters` | backend/db.js:119-135 | of a new person, a row with the name and a later one with the surname leave the name or the default in its place, depending on their order |
| `RevisionHistory.ComputeChanges` | backend/handlers/anagrafica_audit.js:3-15 | one change for each field that is not ignored and does not read the same on both sides, from the old value read to the new one, undefined as null, and no other |
| `RevisionHistory.ChangesAre` | backend/handlers/anagrafica_audit.js:3-15 | between two payloads exactly those fields change, other than id, last_modified and _actor_user_id, that one side lacks or whose values differ or are objects, with the values of both sides |
| `RevisionHistory.FirstChangesAre` | backend/handlers/anagrafica_audit.js:3-15 | the first payload changes all its fields but those three, from nothing |
| `RevisionHistory.GetHistory` | backend/handlers/anagrafica_audit.js:44-58 | newest first, each revision is the diff of its row against the latest earlier row that is not a deletion; deletions carry no changes |
| `RevisionHistory.ReplayShowsLatest` | backend/handlers/anagrafica_audit.js:44-58 | replaying the revisions up to any point shows the latest payload that is not a deletion on every field that is not ignored, absent as null, or as the object member of that name once the field was held |
| `RevisionHistory.RoundTripExactly` | backend/handlers/anagrafica_audit.js:8-11 | a field shows what the latest payload holds, absent as null, if and only if it is not one named like a member of every object that was held once and is gone |
| `RevisionHistory.GoneFieldShowsMember` | backend/handlers/anagrafica_audit.js:8-11 | any history of a record that holds a field named like one of the twelve members of every object and then no longer does replays to that member in its place |
| `RevisionHistory.ChangesConnect` | backend/handlers/anagrafica_audit.js:44-58 | each old value is the value shown before the revision, or the object member an absent field reads as, each new one the value shown after, and a deletion changes nothing |
| `VersionArchive.AppVersionArchive.Conserva` | backend/core/appVersionArchive.js:25-41 | an empty package is refused; any other is written, replaces its version's row, and the archive is pruned |
| `VersionArchive.AppVersionArchive.Pota` | backend/core/appVersionArchive.js:62-74 | the loop removes files and rows beyond the first five listed |
| `VersionArchive.AppVersionArchive.Leggi` | backend/core/appVersionArchive.js:76-91 | the first listed row of the version is read and its digest compared |
| `VersionArchive.ListedIsBackwards` | backend/core/appVersionArchive.js:43-60 | with a clock that does not go back the listing is the table from its last row to its first |
| `VersionArchive.CutCommutes` | backend/core/appVersionArchive.js:62-74 | pruning after every store leaves the same five as pruning once at the end |
| `VersionArchive.RunMirrors` | backend/core/appVersionArchive.js:25-74 | after any run of stores, row by row and file by file, the archive is the newest five of the distinct versions stored |
| `VersionArchive.RowsAndFilesAreTheNewestFive` | backend/core/appVersionArchive.js:25-74 | rows and files correspond one to one and are the most recently stored distinct versions: all up to five, five beyond |
| `VersionArchive.ReadReturnsLastStored` | backend/core/appVersionArchive.js:76-91 | reading returns the bytes last stored for a version among those five, and nothing for any other |
| `VersionArchive.NamesCollideExactly` | backend/core/appVersionArchive.js:15-18 | two versions have one file name if and only if their texts, 0.0.0 for an empty one, are of one length and differ only where both have an underscore or a character that is replaced by one |
| `VersionArchive.PlainVersionsHaveOwnFiles` | backend/core/appVersionArchive.js:15-18 | versions of letters, digits, dots, underscores and hyphens have a file each |
| `VersionArchive.SharedFileLosesVersion` | backend/core/appVersionArchive.js:25-41 | of two versions that share a file name, such as 1+0 and `1 0`, storing the second makes the first unreadable |
| `FlightRecorder.FlightRecorder.RecordEvent` | backend/observability/flightRecorder.js:27-44 | the buffer keeps mirroring the end of the unbounded log, across wrap-around |
| `FlightRecorder.RecordKeepsMirror` | backend/observability/flightRecorder.js:34-40 | overwriting the slot at the cursor and advancing it moves the mirror on by one event |
| `FlightRecorder.FlightRecorder.GetEvents` | backend/observability/flightRecorder.js:46-65 | for any limit of at least one, the newest min(limit, count, capacity) events of the whole log, newest first; other limits as the loops treat them |
| `Filtering.FilterMembers` | backend/observability/MatterAuditEngine.js:211-215 | filtering keeps exactly the elements that pass |
| `Filtering.FilterPairs` | backend/observability/MatterAuditEngine.js:211-215 | filtering keeps their order |

## Left out

- FixedCatalogueRunsStayClosed: asks that nothing is taken away that something would miss and that plans and version changes meet no row whose folder is lost, because the property then does break; `RemoveExactly`, `AdvanceExactly`, `BeginExactly` and `ChangeVersionExactly` give the conditions.
- NoLostSave: asks that steps are safe, because a flush over an older snapshot under way and writes that fail for good do lose saves; `StepExactly` gives the condition.
- RunsConserve: asks that steps are harmless, because a rejection without an error value can break the property; `StepExactly` gives the condition.
- EveryRunGapFree: asks that deliveries are harmless, because a damaged one can leave a gap; `StepExactly` gives the condition, `EveryRunFine` what holds without it.
- RowsAndFilesAreTheNewestFive: asks for a clock that does not go back and for versions with different file names.
- OrderDoesNotMatter: asks for full rows; `BatchOrderExactly` states the condition for any.
- RootCommitsToLeaves: asks for leaves of digest length, which record hashes have; `UnevenLeavesSameRoot` shows why.
- UncontestedIsHonoured: one direction only when something is installed. Which declaration of an application is met first depends on which declarations before it led to an expansion, hence on which copies their own first meetings kept, so a condition that decides the other half has to follow the search; `HonouredByFirstVisits` follows it and is exact.
- StagedEqualsAtOnce: asks for distinct versions, without which the two lists of migrations need not be in one order.
- ReconcileDomain: leaves out index statements, and a script that commits before its version is set; a failed step has no effect.
- TicksReachUpgrade: asks that both runners take each pending migration to the same effect. A migration given as a function has none for the agent, and the adapter's `run` (`backend/db/SqlJsAdapter.js:65-69`), through which the agent sends scripts, binds an absent parameter and prepares one statement: the effect of a script stands for what its runner makes of it. Several domains in one visit are left out.
- PartStaysPrefix: takes it that the bytes of a transfer that broke off (`backend/core/lanUpdateFetcher.js:141-144`) have landed or been dropped before the next candidate is asked.
- Operation identifiers: that the joined text determines node, number and time is assumed, and nodes whose names collate as equal are one node.
- Dependency declarations: `dipendenzeDi` and `normalizzaInstallate` read manifests and rows into lists and maps before the model starts; `descriviProblemi`, `resolve` and `getMissingDeps` only rephrase a plan. Catalogue identifiers are unique.
- Store: permissions, update locks, minimum core versions, downloading and unpacking appear only as a placing that fails early; an application placed on disk whose start fails appears as one that fails late. Each folder has a manifest and is named after its application; the rows are the active ones of the table.
- Store: refusing to uninstall predefined applications, removals that fail halfway, and installations and removals ordered by the cluster, which bypass the dependency checks.
- Audit: masking of personal data, publishing on the event bus, and serialisation failures.
- Spool: registering providers and health checks; random item identifiers are replaced by the order of spooling.
- Download: progress reports, the query for peer information and file-system errors other than a failed rename. That a peer answers 416 to a range beyond the end of its file is taken from the web server library it uses.
- Write-behind: backups, recovery in `loadDatabase`, `reset`, workspace switching, and a temporary file that cannot be written or deleted. Databases are unlocked. That encryption answers come in the order of the requests is taken from `backend/db/crypto_worker.js:52-75`: one thread, and a fallback on the main thread in the same order. The fifth attempt's copy counts as a move.
- Rows: identifiers that are not safe SQL names, rows the table rejects (columns it lacks, constraints that fail), defaults that depend on the time of insertion, and a failed transaction.
- Replication: log and state vector live in memory only, while the node identifier is set again at every start (`backend/networks/lifecycle/runtime_bootstrap.js:22`), so a restarted node would number anew; a run is one life of the processes.
- History: actor names, the ledger query and its order, masking; a payload that does not parse counts as empty and every other is an object. Object keys are compared as a set, so the order of changes within a revision is not stated.
- Archive: several applications, which do not share rows or files; `rimuoviTutte`; a file that cannot be removed.
- Marketplace: everything but the update test. Flight recorder: the diagnostic dump and its timer.
- The internals of `backend/dag/`, sessions, windows, local servers and the other handlers.
