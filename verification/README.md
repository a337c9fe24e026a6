# Session transfer, verified

A Dafny model of the Codex session transfer engine: how a conversation, stored as a chain of append-only rollout files
with inherited prefixes, is found, copied to a stream, received, published into another home beside live writers and a
live indexer, and how its private staging is cleaned up. The model follows the Go code branch by branch; loops over
buffers, files, members, locks, directory entries and mounts are methods with loops, each proved equal to a
specification function, and the properties are proved about those functions and about state machines over the steps.

`dafny verify dfyconfig.toml` checks everything.

## How the model is built

- `model.dfy`, `format.dfy`: values, identities and file names. Paths and ids are strings, contents byte sequences. The
  JSON decoder, Zstandard, SHA-256, the clock format and the local zone are function parameters (`World`). Three
  hypotheses appear where they are needed and nowhere else: `CollisionFree` (no two contents share a digest), `Lossless`
  (decompression undoes compression) and `ClockFormats` (a rendered timestamp contains no slash).
- `rollout.dfy`, `cutoff.dfy`, `readable.dfy`: the record reader, ordinals, cutoffs and the backward boundary scan.
  `Summarize` is the specification of `readRolloutFile`, `SavedBoundary` that of `savedRecordBoundary`, `NextRecord`
  that of `readRecord`.
- `inspect.dfy`, `lineage.dfy`, `resolution.dfy`: `Resolve` is the specification of `inspect`. The inventory is any
  enumeration of the listed paths, so nothing depends on its order.
- `conflicts.dfy`, `comparison.dfy`, `planning.dfy`, `acceptance.dfy`: `Compare`, `Check` and the steps an accepted
  check leads to.
- `steps.dfy`, `noninterference.dfy`, `schedule.dfy`, `publication.dfy`: the two durable changes (rename over a managed
  prefix, exclusive link), when they are safe, and why every accepted publication consists of safe steps.
- `retry.dfy`, `convergence.dfy`, `endtoend.dfy`, `closure.dfy`, `repetition.dfy`, `reports.dfy`: stopping anywhere,
  retrying, and what inspection finds afterwards. `FinalView` describes the destination without mentioning steps.
- `disks.dfy`, `crashes.dfy`, `durability.dfy`: live directories that lose unsynced links, renames and whole new
  directories in machine crashes; every directory entry is synced only by the step that made it. First the disk alone,
  then what crashes keep of conversations, then a publication with its retries.
- `slots.dfy`, `statedb.dfy`, `publisher.dfy`, `confirmation.dfy`: publication as it runs on mutable storage, stage,
  lock table and database, with trouble before or after each change.
- `locks.dfy`, `looks.dfy`, `concurrency.dfy`, `progress.dfy`, `eras.dfy`: the writer guards, what a check depends on
  while others publish, any number of publishers interleaved step by step, and machine crashes between and during such
  runs.
- `tar.dfy`, `wire.dfy`, `framing.dfy`, `streams.dfy`, `roundtrip.dfy`, `transfer.dfy`, `exports.dfy`, `receiver.dfy`:
  framing, `Export`, `Receive`, and the whole way from one home to another. The codecs are parameters (`Codecs`);
  `Sound` says that headers are self-delimiting, that the JSON manifest is read back and that digests are well formed.
  `ustar.dfy` gives the headers byte by byte (ustar interchange format with extended headers, pax utility, POSIX.1-2017)
  and proves that part.
- `staging.dfy`, `ownership.dfy`, `recovery.dfy`, `lifecycle.dfy`: recovery as it runs, the ownership protocol as a
  state machine in which processes die at any step, machines lose any unsynced directory change and foreign entries
  appear at any moment, and what recovery takes and leaves.
- `indexing.dfy`, `overlap.dfy`: publisher and native indexer over the destination's files. A scan records for the
  thread only a listed file of the thread that it has collected, with the mode it read there; one that began after all
  files were durable records the complete rollout (`docs/session-transfer-design.md`, lines 283-293).
- `mounts.dfy`, `exposure.dfy`: selecting and narrowing a workstation's mounts, and all that a helper can reach.
- `example.dfy`: a smallest accepted publication, which shows that the publication hypotheses hold together, concrete
  codecs, which show that those of the wire do, and the two concrete cases below.

The main specification functions have an independent counterpart: a lemma whose name ends in `Exactly` says, for all
inputs and both ways, what the function accepts and returns in terms of records, stored files, rows, mounts or bytes.

## Properties that hold only under a condition

- A snapshot with a file dated, in the exporting host's own zone, outside the years 1970 to 2261, if its export
  completes, is refused by every receiver. `RoundTrip.ExportRoundTrips` gives the exact condition, `Example.ZoneDecides`
  two cases in which it is not the year in UTC that counts.
- The thread's row is confirmed only after several files or a promotion (`publish.go`, line 158). A single-file
  publication without one can succeed while a scan that was already running records another rollout of the thread that
  the destination listed. `Overlap.SelectionExactly` proves the exact condition; `Example.Unconfirmed` is a concrete
  publication that fails it.
- Removal of a stage looks at its whole layout before it unlinks anything, so that a stage with an unfamiliar entry
  loses nothing (`stage_recovery.go`, lines 114-163). An entry that appears after that look does not stop it: the second
  pass unlinks every name but the lease, the new entry too, and one that appears after the third pass is kept but still
  loses its lease. `Recovery.UnfamiliarKeepsAll` gives the exact condition for all entries of the stage,
  `Recovery.UnfamiliarIsSafe` and `Recovery.LossMeans` for the unfamiliar one, `Recovery.ForeignLost` the losing runs.
- A retry finds present what an earlier attempt made and could not sync, a link, a rename or a directory, and does not
  sync it again (`publish.go`, lines 119-134, `stage.go`, lines 22-36). `Durability.RetryDurable` gives the exact
  condition under which a complete retry is durable nevertheless, `Durability.InheritedAtRisk` that under which an
  inherited rollout is, `Durability.DirectoryTakenBack` and `Example.UnsyncedDirectory` runs that fail it. A further run
  still converges (`Durability.CrashesConverge`), and no other conversation is touched (`Eras.ResolvesForGood`).

## Model

| member | source | states |
|---|---|---|
| Format.ParseIDCanonical | internal/session/format.go:14-20 | a value in the canonical text form parses to itself |
| Format.ParseIDExactly | internal/session/format.go:12-20 | identities, exactly: accepted are five groups of 8, 4, 4, 4 and 12 hexadecimal digits in either case and nothing else, and the digits come back in lower case |
| Format.PublicationPathFacts | internal/session/format.go:45-70 | every published path is clean, lies in managed storage, parses to the file's own thread and rollout, is a prerequisite path exactly for prefixes, archived exactly when it must be, and publishing from it leads to it again (idempotence) |
| Format.MadeParses | internal/session/format.go:52-58 | the name made for a legacy rollout from its timestamp parses back to its thread |
| Format.ParseNameExactly | internal/session/format.go:76-101 | names, exactly: a path is a rollout if and only if its last component is rollout-, a timestamp, a thread and perhaps a rollout of its own, .jsonl, perhaps .zst; and these are its identities |
| Format.StampExactly | internal/session/format.go:85-87 | timestamps in names, exactly: the moments of the Gregorian calendar, written 2006-01-02T15-04-05 |
| Format.ValidRelativeExactly | internal/session/home.go:71-74 | clean paths below the home, exactly: one or more plain parts with a slash between them, none of them empty or a step to the same or the parent directory, and no backslash or NUL |
| Format.PublicationExactly | internal/session/format.go:45-70 | publication paths, exactly: a file has one if and only if its name carries its identities or it is a legacy file for which such a name can be made; it lies below the prerequisite root by rollout, in the archive, or by the date in the name |
| Format.FormsAlike | internal/session/format.go:76-101 | the plain and the compressed form of one rollout path carry the same identities and the same managed, prerequisite and archived status |
| Format.ParsedSuffix | internal/session/format.go:76-84 | every path the inventory can list carries a suffix a database row may name |
| Rollout.RecordReader.ReadSlice | internal/session/rollout.go:239-258 | the buffered reader returns at most one buffer, ending at the first newline, at a full buffer or at the end of input |
| Rollout.RecordReader.ReadRecord | internal/session/rollout.go:239-258 | the fragment loop yields exactly the next newline-terminated record, or the precise error for an over-long, unfinished or unreadable one, and advances by that record |
| Rollout.FirstNewline | internal/session/rollout.go:239-258 | the position of the first newline, or the length, with no newline before it |
| Rollout.AfterLastNewline | internal/session/rollout.go:191-215 | one past the last newline, or zero, with no newline after it |
| Rollout.LastNewline | internal/session/rollout.go:202 | the last newline of the buffer, or none at all behind it |
| Rollout.SavedRecordBoundary | internal/session/rollout.go:191-215 | the 64 KiB backward scan refines its one-line definition for every content, size and limit: it returns b exactly when b is one past the last newline below size and the tail is within the record limit, errs otherwise, terminates, and reads at most the limit plus one chunk |
| Rollout.ScanRecords | internal/session/rollout.go:111-169 | the record loop computes the fold of the per-record checks over the bytes, with the error of the first record that fails |
| Rollout.ReadRolloutFile | internal/session/rollout.go:73-186 | reading a rollout, whole, at a cutoff or as a snapshot, yields exactly the specified size, digest, metadata and last ordinal or the specified error |
| Cutoff.CutoffLocality | internal/session/rollout.go:99-175 | a successful read at a cutoff depends on the bytes before the cutoff only: any file that agrees there gives the same size, digest, metadata and last ordinal, whatever follows |
| Cutoff.CutoffIsWhole | internal/session/rollout.go:99-175 | reading at a cutoff equals reading those bytes as a complete file, and the cutoff is exactly its byte and ordinal end |
| Cutoff.WholeIsCutoff | internal/session/rollout.go:99-175 | a complete paginated file can be read at its own end in every file that extends it, with the same result |
| Cutoff.SummaryCovers | internal/session/rollout.go:166-167 | a successful read has consumed every byte it hashes, and size and digest are those of exactly these bytes |
| Cutoff.SummaryBounds | internal/session/rollout.go:122-124 | an accepted rollout is non-empty, within the file limit, and its metadata is normalised |
| Cutoff.PaginatedOrdinals | internal/session/rollout.go:149-165 | the ordinals of an accepted paginated rollout increase strictly from where its inherited history ends (or zero) to its last ordinal |
| Readable.WholeExactly | internal/session/rollout.go:111-186 | whole files, exactly, by their records: newline-terminated, within the limits, each with a type and a payload, the first metadata record good for the thread; a legacy rollout may hold anything else, a paginated one begins with its only metadata and its ordinals increase from where its history begins; and what is then established |
| Readable.ReadableExactly | internal/session/rollout.go:111-186 | any stream, exactly: it reads as a whole rollout if and only if it ends cleanly and is such a list of records |
| Readable.CutoffExactly | internal/session/rollout.go:99-175 | cutoffs, exactly: a file can be read at one if and only if it has that many bytes, within the limit, and they are by themselves a paginated rollout that ends at the cutoff's ordinal |
| Readable.ReadExactly | internal/session/rollout.go:73-186 | stored files, exactly: one reads as a whole rollout if and only if what it holds, decoded to a clean end where it is compressed, is one |
| Readable.CaptureExactly | internal/session/rollout.go:79-91 | live files, exactly: a plain one is captured if and only if, but for an unfinished record within the limit, it is a whole rollout |
| Inspect.ReverseFiles | internal/session/inspect.go:146-148 | the in-place swap loop reverses the files |
| Inspect.ReadAgreeing | internal/session/inspect.go:105-121 | the representation loop returns the first file when all are readable and agree, else the error of the first that does not |
| Inspect.WalkLineage | internal/session/inspect.go:92-148 | the backward loop over rollouts with its seen set and final reversal computes the recursive lineage, terminates on every inventory including cyclic ones (measure: rollouts not yet seen), and fails with the specified error |
| Inspect.InspectThread | internal/session/inspect.go:25-161 | inspection, from identity and limits through selection, agreement and lineage to the re-read of the selection, computes Resolve; a snapshot whose selection has changed meanwhile is refused |
| Lineage.AgreeFacts | internal/session/inspect.go:105-121 | agreement holds exactly when every representation can be read and all have the same bytes, digest and thread |
| Lineage.ReadFacts | internal/session/rollout.go:73-186 | what a successful read establishes: identities, exact content, digest, and for a cutoff its byte and ordinal end |
| Lineage.WalkFacts | internal/session/inspect.go:92-148 | a returned lineage has distinct rollouts outside the seen set, within the file limit, prerequisites first, neighbours joined exactly at byte and ordinal cutoffs |
| Lineage.ResolveFacts | internal/session/inspect.go:25-161 | every plan is a complete lineage: first file inherits nothing, the requested thread last and complete, all others prefixes, all joined exactly |
| Lineage.LineageOrdinals | internal/session/inspect.go:92-148 | over a paginated lineage record ordinals increase strictly across the concatenation of all files, from zero to the last ordinal of the requested rollout |
| Resolution.WalkExactly | internal/session/inspect.go:92-148 | the walk, exactly: its result is the one chain of agreeing representations, each cut where its successor's history begins, back to a file that inherits nothing, without a rollout twice and within the file limit |
| Resolution.ResolveExactly | internal/session/inspect.go:25-161 | inspection, exactly: it returns a plan if and only if the thread is a UUID, the limits are sound, the selection is the same when a snapshot reads it again, the thread starts from representations of one rollout of its own, and the plan is the whole chain from there, as the row says |
| Resolution.LegacyExactly | internal/session/inspect.go:58-71 | of a legacy row whose name carries no identities both stored forms are taken, and nothing else, as the thread's only rollout |
| Conflicts.ChooseOne | internal/session/publish.go:247-276 | the candidate loop for one incoming file computes WeighAll: path preference, extensions, promotion and the first conflict |
| Conflicts.ChooseAll | internal/session/publish.go:241-278 | the loop over incoming files computes the choices in order |
| Conflicts.CheckConflicts | internal/session/publish.go:172-279 | the whole check, admission of the selected row, rivals, and choices, computes Check |
| Comparison.CompareFacts | internal/session/extend.go:26-58 | a representation reported as growing is a proper prefix of the incoming bytes in managed storage; one reported as sufficient holds all the bytes the lineage needs |
| Comparison.CompareExactly | internal/session/extend.go:26-58 | what the comparison decides, by content alone and both ways: a stored representation is taken as it is exactly when it holds what the incoming lineage needs of it, and grown exactly when it is a complete readable paginated prefix in managed storage that the incoming bytes continue; everything else is a conflict |
| Comparison.CompareSettled | internal/session/extend.go:26-58 | a representation holding exactly the incoming bytes is accepted without growth |
| Comparison.ContinuationMetadata | internal/session/rollout.go:135-148 | a readable continuation of a paginated rollout has the same metadata |
| Comparison.WeighAllFacts | internal/session/publish.go:247-276 | the candidate loop succeeds exactly when every representation of the rollout fits, and then collects exactly the growing ones, presence and promotion |
| Comparison.ChosenPath | internal/session/publish.go:273-275 | the path chosen for a present rollout is that of one of its usable representations |
| Comparison.PreferredPath | internal/session/publish.go:273-275 | of several representations the path of an ordinary one is reported rather than a managed prerequisite's, and the selected one's rather than any other's |
| Comparison.CheckAccepts | internal/session/publish.go:172-279 | the check accepts if and only if the row is admissible, the thread has no rival and every representation of every incoming rollout fits |
| Comparison.CheckExactly | internal/session/publish.go:172-279 | the whole check by content alone: it accepts if and only if the row is admissible, the thread has no rival, and every stored representation of every incoming rollout belongs to its thread and holds what is needed or can be continued |
| Acceptance.AcceptedExactly | internal/session/publish.go:172-279 | the whole check, exactly, by what is stored and what the row says: the row names the conversation itself (a legacy one also under a name that carries no identities) or a prerequisite at its own place in the incoming lineage, its file is there, no unvouched complete rollout rivals it, and every stored representation holds what is needed or can be continued; of accepted publications exactly those under a prerequisite's row repair it |
| Planning.AdmissionFacts | internal/session/publish.go:182-233 | the selected row adds only unlisted forms of a legacy main file, and a complete selection is among the candidates of the main rollout |
| Planning.ChoiceAt | internal/session/publish.go:241-278 | what each accepted choice says about the destination: extensions, presence, path, promotion, repair |
| Planning.StepsForPlanned | internal/session/publish.go:113-134 | every step of an accepted publication is planned for one incoming file: a verified growth of a listed managed prefix, or a new link at the canonical path |
| Steps.AgreeKept | internal/session/publish.go:113-134 | no safe step takes away or changes what any inherited rollout holds at any cutoff, in any representation |
| Steps.StepAppends | internal/session/extend.go:126-155 | one step keeps every live file byte for byte, except that a managed prerequisite may have grown at its end |
| NonInterference.StepNonInterference | internal/session/publish.go:113-134 | one step leaves every thread that could be resolved resolving to the same rollouts, sizes and digests, in every inventory order |
| Schedule.RunAppends | internal/session/extend.go:126-155 | append-only storage over whole runs of steps |
| Schedule.RunNonInterference | internal/session/publish.go:48-166 | non-interference over whole runs, stopped anywhere |
| Schedule.RestStaysSafe | internal/session/publish.go:113-134 | steps that are safe together and compatible in order stay safe while they are made one by one |
| Publication.AbsentMeans | internal/session/publish.go:267-275 | when a rollout counts as absent, every listed file of it is a managed prefix of the complete conversation being installed |
| Publication.NewConversation | internal/session/publish.go:234-240 | a complete conversation is installed only when its thread has none and no row names one |
| Publication.PublicationIsSafe | internal/session/publish.go:108-134 | all steps of an accepted publication are safe at the destination it was checked against, and every prefix of them is a safe run: with the two theorems above, success, failure or a stop after any step disturbs no conversation |
| Retry.StopsUnderway | internal/session/publish.go:108-148 | wherever a publication stops, every path is as before or holds exactly its incoming bytes |
| Retry.AcceptedAgain | internal/session/publish.go:172-279 | a retry is never refused: after any number of steps the same check accepts again with the same repair |
| Convergence.SameAim | internal/session/publish.go:108-148 | an interrupted publication still aims at the same destination, described without reference to its steps |
| Convergence.PublicationReaches | internal/session/publish.go:108-148 | a publication that runs to its end leaves exactly that destination |
| Convergence.RetryConverges | internal/session/publish.go:108-148 | interrupt after any number of steps and run the same stream again: the destination is the one an uninterrupted run leaves |
| Convergence.RepeatIsIdle | internal/session/publish.go:108-148 | after a complete run, one more plans no step at all |
| Convergence.StepsThrough | internal/session/publish.go:113-134 | after the steps of the first n files nothing remains to be done for them |
| EndToEnd.FitReads | internal/session/extend.go:26-58 | every accepted representation that need not grow is read by inspection as the incoming file |
| EndToEnd.WalkFinds | internal/session/inspect.go:92-148 | from any published file the lineage walk finds it and all it inherits, with the incoming content |
| EndToEnd.MainFound | internal/session/inspect.go:45-91 | with no row or any consistent one inspection starts from the published conversation, also for an unlisted legacy file |
| EndToEnd.IdleResolves | internal/session/inspect.go:25-161 | where the check accepts a conversation and finds nothing to do, inspecting the thread yields exactly the incoming rollouts, sizes, digests and prefix flags |
| Closure.CrashClosure | internal/session/publish.go:108-148 | stop after any step: every rollout that an installed or grown file inherits is at the destination and every representation of it can be read at the exact cutoff, with the incoming bytes and metadata |
| Closure.PublishedResolves | internal/session/publish.go:48-166 | end-to-end: after a publication, whatever mixture of representations was there, inspection of the thread yields the incoming lineage |
| Closure.ReportedMain | internal/session/publish.go:136-140 | the reported main path is a stored, ordinary representation of the complete conversation |
| Disks.LiveDirectory.MakeWay | internal/session/stage.go:22-36 | making a directory makes each missing component and syncs its parent before the next; a component that is there is not synced; on trouble a prefix of this is done, the last call synced or not |
| Disks.LiveDirectory.InstallFile | internal/session/publish.go:118-135 | installing a file makes its directory, links it and syncs the directory; on trouble a prefix of this is done, the last call synced or not |
| Disks.KeptExactly | internal/session/stage.go:28-30 | what a machine crash can do to one path: nothing if and only if the file's own entry and the entry of every component of its path are synced |
| Disks.GoneExactly | internal/session/stage.go:28-30 | a path can be gone after a machine crash if and only if it is not there now, or it has been linked since its directory was last synced, or a component of its directory has not been synced |
| Disks.DoneAllIs | internal/session/stage.go:22-36 | what a complete sequence of changes leaves of any disk: its own entries are synced, and of all earlier unsynced ones exactly those that lie in a directory it has synced |
| Disks.CompleteDurable | internal/session/publish.go:118-135 | after a complete sequence of changes nothing can be taken back if and only if everything left unsynced before lies in a directory it has synced |
| Crashes.Rebuilt | internal/session/publish.go:108-135 | any mixture of versions that storage had at different moments is what some of the safe changes alone, in their order, would have left, each of them safe |
| Crashes.CrashesAppend | internal/session/extend.go:126-155 | append-only storage for every disk history: safe changes by anybody, synced or not, and machine crashes that lose what they can, in any order |
| Crashes.CrashesNonInterference | internal/session/publish.go:48-166 | non-interference for every such history: each thread that resolved at the beginning, and whose row stays, resolves to the same rollouts, sizes and digests |
| Durability.MachineCrashClosure | internal/session/publish.go:108-135 | crash closure over machine crashes: stop a first attempt after any system call, mkdir, link or rename, its directory synced or not, and lose what can be lost, directories included; whatever was installed or has grown and survives, all it inherits survives at its exact cutoff |
| Durability.CrashesConverge | internal/session/publish.go:108-148 | after any number of attempts, stopped after any system call and with failed syncs, and any number of machine crashes that lose whatever was not synced, directories included, the check accepts again and a complete run leaves what the first one would have left |
| Durability.RetryDurable | internal/session/publish.go:108-134 | from any disk, whatever was unsynced when it began, a retry that runs to its end makes its planned steps, and then no machine crash can change anything if and only if, for every path, the file's own entry and the entry of every component of its path had been synced since they were made, or are held by a directory in which the retry itself made something |
| Durability.InheritedAtRisk | internal/session/publish.go:119-134 | after any number of attempts and machine crashes, one more crash can take an inherited rollout that was absent at first if and only if it is not there, or its link has never been synced, or a component of its directory has not; and without it the lineage is broken |
| Durability.DirectoryTakenBack | internal/session/stage.go:22-36 | for every accepted publication of one new file below a directory that is not there: a first attempt whose sync of the new directory's parent fails, a retry that runs to its end, and a machine crash after which the file is gone |
| StateDb.Database.BeginSelectionUpdate | internal/session/selection_update.go:57-89 | the reservation succeeds exactly when the database is free, its schema qualified, indexing complete, the row still the validated paginated one and the file still the one at the path |
| StateDb.Database.Finish | internal/session/selection_update.go:155-174 | the update changes the one matching row (its path and archive flag, its archive time unless an earlier one is kept, never its mode) and no other, between two looks at the identity of the file; it reports success exactly when the row matched, both looks did and the commit was confirmed; an unconfirmed commit may have gone through |
| Publisher.Storage.Inventory | internal/session/home.go:124-174 | every listed path of the tree exactly once |
| Publisher.Storage.PublishPrefix | internal/session/extend.go:126-155 | the rename replaces the one path, exactly when inode, size and modification time are still those validated; a failed directory sync leaves it replaced |
| Publisher.Storage.Link | internal/session/publish.go:119-135 | the exclusive link adds the one path exactly when it is unused, and counts it even if the directory sync fails |
| Publisher.Staging.PreparePrefix | internal/session/extend.go:78-124 | a fresh slot gets the complete incoming bytes in the encoding of the old path with the incoming time, exactly when the file is paginated, the old path managed and staging succeeds; received files are untouched |
| Publisher.Staging.PrepareAll | internal/session/publish.go:77-86 | all longer copies are staged before anything live is touched |
| Publisher.InstallOne | internal/session/publish.go:108-135 | one turn of the apply loop makes exactly the planned steps of one file, in order, and stops at the first trouble |
| Publisher.InstallAll | internal/session/publish.go:108-148 | the apply loop makes exactly a prefix of the planned steps, all of them on success, with exact counts and the specified report |
| Publisher.GrowsPaginated | internal/session/extend.go:78-82 | whatever grows makes its incoming file paginated, so preparation's own demand is always met |
| Publisher.AcceptedEnabled | internal/session/extend.go:126-146 | each step of an accepted publication finds its path exactly as the check did |
| Publisher.Commit | internal/session/publish.go:87-157 | reserve, install, promote: live storage and the row change as specified and in no other way |
| Publisher.PublishLocked | internal/session/publish.go:73-157 | publish under its locks, up to the confirmation of the selection: on refusal nothing changes; otherwise live storage is the old one with a prefix of the planned steps; the row is promoted only after all of them; with ideal hashing and lossless compression an accepted publication fails through outside trouble only |
| Confirmation.FinishPublicationSelection | internal/session/selection_update.go:232-267 | the confirmation changes no row, or exactly the thread's, which then named a prerequisite of the incoming lineage before and names what was published afterwards; it returns at once with nothing to repair exactly where the first settled look shows no database, no row or the published one; and where it shows a prerequisite the destination still accepts, it repairs it if and only if the commit is confirmed |
| Confirmation.Publish | internal/session/publish.go:48-166 | publish from end to end: without every writer lock of the lineage, or where what is stored or the row speaks against it, nothing changes; with the locks, what PublishLocked and the confirmation promise; where nothing outside is in its way it succeeds; the locks are released and no other thread's row is touched, however it ends |
| Repetition.RepeatReportsNothing | internal/session/publish.go:108-148 | one more run after a complete one, with the row repaired where it named a prerequisite, is accepted and reports no file created, extended or promoted |
| Repetition.ReportMeans | internal/session/publish.go:136-137 | a file is reported as created exactly when its path did not exist, and as extended exactly when it is a prefix of which some representation was too short |
| Reports.ReportExactly | internal/session/publish.go:108-157 | the whole report, exactly: paths, created, extended and promoted for every file, main path, archive flag, metadata and repair, each by what was stored and what the row said |
| Tar.TrailerExact | internal/session/stream.go:272-284 | the byte count over the last padding and the final read accept exactly the record's padding (of any content) and two zero blocks, and nothing behind |
| Tar.MemberRead | internal/session/stream.go:116-122 | a written member is read back wherever it stands |
| Ustar.BlockBack | internal/session/stream.go:116-122 | a printed 512-byte header block is read back: name, type, octal size, magic, and a checksum over all other bytes |
| Ustar.ExtendedBack | internal/session/stream.go:97 | a header whose size does not fit eleven octal digits is written with an extended header and read back |
| Ustar.CorruptedUnreadable | internal/session/stream.go:159-168 | a header in which any one byte outside the checksum has changed is not read |
| Ustar.HeadersFaithful | internal/session/stream.go:116-122 | these headers meet what every result about the stream asks of the header codec: read where they were printed, decided by their own bytes, never beginning with a zero block |
| Tar.Reader.Advance | internal/session/stream.go:159-168 | advancing skips the padding, then finds a header, an end or an error, counting the bytes read |
| Wire.ValidateManifest | internal/session/stream.go:288-319 | the loop with its seen set accepts exactly the valid manifests |
| Wire.ValidateLineage | internal/session/stream.go:321-336 | the loop accepts exactly the lineages whose first file inherits nothing and whose neighbours meet at byte and ordinal cutoffs |
| Framing.BodyLocal | internal/session/stream.go:172-271 | a receiver that has read the completion record has looked at nothing behind it |
| Framing.PrefixFree | internal/session/stream.go:261-285 | the set of accepted streams is prefix-free, under any two receivers' limits: nothing shorter and nothing longer than an accepted stream is accepted |
| Framing.AcceptedIntegrity | internal/session/stream.go:212-271 | acceptance means every payload has the size and digest its entry names, and the completion record of exactly the manifest bytes stands right before the trailer |
| Framing.FileAnnounced | internal/session/stream.go:216-256 | a payload that passes has the size, digest, identities, path and kind its entry announces, its metadata are those of its bytes, and its path is the canonical one |
| Framing.ReceivedIsValid | internal/session/stream.go:172-286 | whatever Receive returns is a complete validated lineage, all that publication relies on |
| Streams.ManifestExactly | internal/session/stream.go:288-319 | manifests, exactly: version 1, a conversation's files with distinct canonical rollouts, all but the last prefixes, the last of its thread, each with a well-formed digest, a managed path, a size within the limit and a date that can be carried |
| Streams.ReceiveExactly | internal/session/stream.go:172-286 | receiving, exactly, byte by byte: accepted are the streams of one manifest of version 1, its payloads in its order, each a whole rollout as announced, the completion record of the manifest bytes and two zero blocks, regular members only and with any padding between them; and what is returned for them |
| Streams.OtherVersionRefused | internal/session/stream.go:288-291 | a stream whose manifest decodes to any version but 1 is refused under every receiver's limits |
| RoundTrip.PlanNames | internal/session/inspect.go:45-91 | every file of a plan is a rollout by name |
| RoundTrip.FileCarried | internal/session/stream.go:216-256 | every payload of a completed export passes all these checks, whatever its date, and comes out with the same history |
| RoundTrip.ManifestValid | internal/session/stream.go:288-319 | the manifest of a snapshot's plan is valid if and only if every modification time, in the exporting host's own zone, lies in the years 1970 to 2261 |
| RoundTrip.ExportedContents | internal/session/stream.go:70-114 | whatever a completed export emitted is what the snapshot captured |
| RoundTrip.ExportRoundTrips | internal/session/stream.go:172-286 | Receive of a completed Export succeeds if and only if every modification time, in the exporting host's own zone, lies in the years 1970 to 2261, and then yields the same thread, rollouts, order, prefix flags, digests, metadata and payload bytes |
| Example.DatedConversation | internal/session/stream.go:311 | one concrete conversation on a host one hour ahead of UTC, dated at any instant: its export completes and is received if and only if the date in that zone lies in the years 1970 to 2261 |
| Example.ZoneDecides | internal/session/stream.go:311 | two such exports in which the year in UTC would decide otherwise: half past eleven at night on the last day of 2261 is refused, the nanosecond before 1970 accepted |
| Transfer.SnapshotStable | internal/session/snapshot.go:32-51 | appending to pinned files in any way does not stop an export and changes no emitted byte; of a plain main rollout the captured bytes are the longest newline-terminated prefix |
| Transfer.RewrittenRefused | internal/session/stream.go:133-157 | if captured bytes were rewritten the export fails, so no completion record is written |
| Transfer.PartialRejected | internal/session/stream.go:172-286 | a stream that stops inside its payloads is accepted by no receiver |
| Transfer.CopyFrom | internal/session/stream.go:133-157 | copying a payload yields exactly the planned bytes or the specified error, and never writes more than the planned size |
| Transfer.Snapshot.Capture | internal/session/snapshot.go:32-51 | capture resolves the plan and pins every planned file and every further representation that was read on the way, or pins nothing; where the selection has changed meanwhile it pins nothing |
| Transfer.Snapshot.Close | internal/session/snapshot.go:19-26 | closing releases every pinned file |
| Transfer.Snapshot.Export | internal/session/stream.go:70-114 | export emits exactly the specified stream, or fails with the specified error leaving bytes no receiver accepts |
| Transfer.WriteStream | internal/session/stream.go:93-113 | the member loop writes the manifest, each payload as it is copied, and the completion record only after all |
| Exports.ExportExactly | internal/session/stream.go:70-157 | exporting, exactly: a plan is exported if and only if every file has a publication path, its manifest fits, and of what the descriptors hold the captured part still begins with the captured contents (and a whole compressed file decodes to nothing else); and then as that manifest and those contents |
| Receiver.ReadMember | internal/session/stream.go:159-168 | the next member must be the named regular file of the given size |
| Receiver.ReadPayloads | internal/session/stream.go:212-257 | the payload loop computes the specified files, contents and rest, with the first error |
| Receiver.ReceiveStream | internal/session/stream.go:172-286 | receiving computes Receive on every input and error path |
| Receiver.TransferPreserves | internal/session/stream.go:172-286 | snapshot, export, receive and publish compose: inspection at the destination finds what inspection found at the source |
| Locks.WriterGuards.Acquire | internal/session/locks.go:50-80 | acquisition succeeds exactly when nothing is missing or the coordination lock and every missing lock are free; what it takes is recorded, was free and is all that changes |
| Locks.WriterGuards.Close | internal/session/locks.go:82-92 | closing releases exactly the recorded locks |
| Locks.AcquireAndClose | internal/session/locks.go:50-92 | a failed (or successful) acquisition followed by Close leaves the lock table as it was |
| Concurrency.NextKeeps | internal/session/publish.go:61-148 | every event of any number of publishers keeps the invariant: locks match holders, and the remaining steps of every publisher past its check are safe now |
| Concurrency.WriterExclusion | internal/session/locks.go:50-92 | in every reachable state each publisher past its check holds the lock of every thread and rollout of its plan, no lock has two holders, and two such publishers share no id |
| Concurrency.ConcurrentNonInterference | internal/session/publish.go:48-166 | in every interleaving of any number of publishers arriving, failing and dying at any point, each thread that resolved at the start resolves to the same rollouts, sizes and digests |
| Concurrency.ConcurrentAppends | internal/session/extend.go:126-155 | append-only storage over every such interleaving |
| Progress.PublicationGoes | internal/session/publish.go:48-166 | progress: in every reachable state in which nobody holds a lock of its plan, a publication the destination accepts can be made to its end by its own steps alone, and leaves nothing behind but its files |
| Progress.StopsAnywhere | internal/session/publish.go:48-166 | a publisher can fail or die wherever it is, with any of its steps unmade: storage and rows stay, and its locks and no others become free |
| Looks.CheckLocal | internal/session/publish.go:172-279 | the check, acceptance or refusal alike, depends on files with the ids of its plan only: which of them are there, in which order the walk meets them, what each holds |
| Concurrency.Undisturbed | internal/session/locks.go:50-92 | while a publisher that has all its locks is checking, no event of any other touches a file or a row with one of its ids |
| Concurrency.CheckIsAtomic | internal/session/publish.go:172-279 | a check that walks and reads the destination piece by piece while others publish answers what it would answer at any one moment of that time, over an inventory in the same order |
| Eras.CrashNonInterference | internal/session/publish.go:48-166 | one machine crash at any moment of any interleaving of publishers, leaving each file and each row as it was at some moment of the run: each thread that resolved at the start resolves to the same rollouts, sizes and digests |
| Eras.AppendsForGood | internal/session/extend.go:126-155 | append-only storage over any number of such runs, each from what the crash before it left |
| Eras.ResolvesForGood | internal/session/publish.go:48-166 | non-interference over any number of such runs |
| Slots.SlotsRecognised | internal/session/stage_recovery.go:65-82 | a slot name is recognised if and only if its index has at most 19 digits, which every non-negative 64-bit index has |
| Slots.SlotsDistinct | internal/session/stage_recovery.go:65-82 | no two slots share a name and none is the lease |
| Slots.StagesRecognised | internal/session/stage_recovery.go:56-63 | the recognised directory names are exactly the prefix and the lower-case hexadecimal text of sixteen bytes |
| Slots.SlotNamesExactly | internal/session/stage_recovery.go:65-83 | the slot names recovery recognises, exactly: six to nineteen digits, as a payload or as an extension |
| Staging.Storage.Unlink | internal/session/stage_recovery.go:164-169 | unlinking a name keeps the bytes of every inode that still has one |
| Staging.Storage.ValidateLayout | internal/session/stage_recovery.go:132-163 | the first pass accepts exactly the valid layouts and reports whether there is a lease |
| Staging.Storage.RemoveStaging | internal/session/stage_recovery.go:118-198 | removal succeeds exactly on a valid layout, then removes this stage and nothing else; an irregular file, a foreign name, a lease with content or a second link, or a payload without a lease keeps everything; published hard links keep their bytes |
| Staging.Storage.RecoverStage | internal/session/stage_recovery.go:220-273 | a stage is removed exactly when it is ours, its lease free and its layout valid |
| Staging.Storage.RecoverStaging | internal/session/stage_recovery.go:202-218 | one pass leaves exactly the stages that are not ours by name or owner, whose lease somebody holds, or whose layout no removal may touch, and every live rollout with its bytes |
| Ownership.NextKeeps | internal/session/stage_recovery.go:118-273 | every step of creation, use, closing and recovery, every death and every machine crash keeps the ownership invariant |
| Ownership.LiveIsKept | internal/session/stage.go:54-98 | in every reachable state a stage between the return of staging and Close is there with its lease and every slot |
| Ownership.DurableLease | internal/session/stage.go:75-86 | after a machine crash at any moment every stage that holds a slot holds its lease, and every live stage is still there |
| Ownership.AbandonedIsReapable | internal/session/stage_recovery.go:132-163 | wherever its transfer or removal died, an abandoned stage has a name and layout recovery accepts and a free lease |
| Lifecycle.TransferGoes | internal/session/stage.go:54-139 | a whole transfer by its own steps alone: a live stage under any fresh name, a payload created in it and published from it, and a Close that leaves no trace, not even for a crash to bring back |
| Lifecycle.AnyFailure | internal/session/stage_recovery.go:114-163 | no failure is left out of the ownership protocol: a process can die wherever it is, which frees its locks alone, a removal can fail at any of its steps, and a machine crash can leave every selection of what was not synced |
| Lifecycle.OrphanedIsReapable | internal/session/stage.go:111-139 | a Close that cannot have the coordinator leaves its stage as it is, abandoned, and recovery may take it |
| Recovery.UnfamiliarIsSafe | internal/session/stage_recovery.go:118-198 | the exact fate of an entry the protocol does not know: without machine crashes it and its stage stay in every continuation if and only if no removal of the stage is past its validation; with them if and only if, besides, entry and stage have been synced |
| Recovery.UnfamiliarKeepsAll | internal/session/stage_recovery.go:114-198 | what such an entry does for its whole stage: every entry of the stage, the owner's own published slots apart, stays in every continuation without machine crashes if and only if no removal of the stage is past its validation with entries, or the lease, still to unlink; with them if and only if, besides, all entries and the stage have been synced |
| Recovery.LossMeans | internal/session/stage_recovery.go:164-169 | an unfamiliar entry lost without a crash was unlinked by a removal's second pass, and it had appeared while that same removal was past its validation |
| Recovery.ForeignLost | internal/session/stage_recovery.go:164-169 | for every staging name and every unfamiliar entry a run from an empty home in which this happens |
| Recovery.PassClears | internal/session/stage_recovery.go:202-273 | recovery completeness: when a pass ends without an error, with other processes doing what they like meanwhile, every stage that was abandoned when it began and that nothing foreign has touched is gone, durably, all of them at once |
| Recovery.PassExists | internal/session/stage_recovery.go:202-218 | from every state a process with the coordinator can make such a pass by its own steps |
| Recovery.PassOverPicture | internal/session/stage_recovery.go:202-273 | the protocol and the directories agree: over the directories of any reachable state the pass keeps exactly the stages whose lease is held and those with an entry the protocol does not know |
| Staging.Storage.Reserve | internal/session/stage.go:54-98 | reserving a stage first recovers, then makes one new directory with a locked lease under a fresh name and nothing else; the new stage cannot be reaped |
| Staging.Storage.Release | internal/session/stage.go:111-139 | closing under the coordinator closes the lease and removes exactly this stage when its layout is valid; without the coordinator it leaves the stage reapable |
| Indexing.Await | internal/session/selection_update.go:269-303 | the polling loop returns the first observation that decides: agreement exactly where the first settled look is content, repair exactly where it shows a prerequisite, nothing exactly where no look is settled |
| Indexing.DecideExactly | internal/session/selection_update.go:232-303 | what one look decides, exactly: waiting while indexing runs or has not begun over a prerequisite's row; agreement without a database, without a row or under a row that names what was published; repair of a prerequisite's row once indexing is complete |
| Indexing.NextKeeps | internal/session/selection_update.go:181-303 | every event of indexer and publisher keeps the invariant: reservations hold the validated row, a row verified by the second check is a prerequisite of the incoming lineage |
| Indexing.PromotedNamed | internal/session/selection_update.go:232-267 | in every run, at publish's own promotion and at the later repair alike, a row the publisher changes named a managed prerequisite of a rollout of this thread in the incoming lineage, names the reported main path afterwards, and is the only one changed |
| Overlap.RepairConfirms | internal/session/publish.go:195-240 | a publication that repairs the row has several files or promotes a prefix |
| Overlap.ConfirmedSelection | internal/session/publish.go:158-164 | with confirmation, in every interleaving the row is absent or names exactly what was reported: path, mode and archive flag |
| Overlap.Succeeds | internal/session/publish.go:61-166 | progress: from every state whose row is absent, already right, or the prerequisite's row that was checked in a completely indexed database, the publication can be made to its end, with the row promoted in the last case and untouched otherwise |
| Overlap.RepairsLate | internal/session/selection_update.go:232-267 | where indexing ends with the row of a prerequisite that a second check confirms, the publication can still promote that row, and no other, and succeed |
| Overlap.OverlappingScan | internal/session/publish.go:158-164 | without confirmation, any listed file of the thread that was at the destination can end up in the row: a scan that was already running collects it, publish returns, the scan records it |
| Overlap.SelectionExactly | internal/session/publish.go:158-164 | a successful publication leaves the row absent or naming a complete representation of the main rollout, in every interleaving, if and only if it had several files, or promoted a prefix, or the destination listed no file of another rollout of the thread |
| Overlap.UnselectedPrerequisite | internal/session/publish.go:234-240 | where no row selects the thread, such a file is a managed prerequisite |
| Example.SmallestPublication | internal/session/publish.go:172-279 | an empty home accepts a one-file transfer, with all hypotheses of the publication theorems, and one step is made |
| Example.Unconfirmed | internal/session/publish.go:158-164 | a concrete accepted publication, into a home that holds a managed prerequisite of another rollout of the thread, whose selection goes wrong in some run |
| Example.UnsyncedDirectory | internal/session/stage.go:22-36 | a concrete accepted publication, a first attempt, a complete retry and a machine crash that leave its file gone |
| Mounts.FindStorageMounts | internal/sessiontransport/target.go:221-270 | the two passes compute the mount above the home and what is attached below it, or the specified refusal |
| Mounts.InspectMounts | internal/sessiontransport/target.go:150-194 | selection, skipping and narrowing compute TargetMounts |
| Mounts.NarrowedMeans | internal/sessiontransport/target.go:173-191 | a narrowed mount resolves every path below the SQLite home to the same daemon place and is no more writable |
| Mounts.HistoryPreserved | internal/sessiontransport/target.go:150-194 | every path below the Codex home resolves through the very mount it is deployed through |
| Mounts.DatabasePreserved | internal/sessiontransport/target.go:150-194 | every database file directly in the SQLite home is at the same daemon place and writable only if it was |
| Mounts.MeaningPreserved | internal/sessiontransport/target.go:150-194 | the mount transformation preserves longest-prefix resolution and adds no write access |
| Exposure.GivenExactly | internal/sessiontransport/target.go:150-194 | the helper's mounts, exactly: the history mounts as deployed, and each other metadata mount cut to the SQLite home, with the storage that is there, and writable only for an import |
| Exposure.NothingElse | internal/sessiontransport/target.go:172-191 | least exposure: whatever path resolves for the helper lies under a history mount or under the SQLite home, and without an import nothing is writable but under a history mount that was |
| Exposure.GivenIf | internal/sessiontransport/target.go:150-270 | when it is given any, exactly: clean targets, none twice, both homes in mounted storage, every selected mount usable, the Codex home writable for an import, and no nonrecursive bind to be cut |
| Exposure.DatabaseNames | internal/sessiontransport/target.go:319-329 | the database files that can be attached by mounts of their own, exactly: state_*.sqlite directly in the SQLite home and its -wal, -shm and -journal |
| Exposure.ThroughExactly | internal/sessiontransport/target.go:176-186 | where a mount has a path: at its own place, and below it as below its destination |

## Left out

- Rollout.ReadRolloutFile: a file that changes while it is read outside a snapshot (the second stat of `rollout.go`,
  lines 176-182); files are read atomically.
- Inspect.InspectThread: absolute row paths and errors of the directory walk; rows are relative to the home, as
  `managedRelative` leaves them, and the inventory is given.
- Publisher.Storage.Inventory: the walk itself with its refusal of symbolic links and special files; every stored file
  is a regular one.
- Publisher.Staging.PreparePrefix: owner and mode of the old file and the single errors of staging; one flag says
  whether staging fails.
- Publisher.PublishLocked: the slot a rename consumes stays listed in its stage object; the ownership model removes it.
- Confirmation.Publish: the database changes during the call only through publish itself, and `looks` says what it shows
  meanwhile; the indexer's own writes are events of the state machine of `indexing.dfy`.
- Confirmation.FinishPublicationSelection: what its looks at the database show is a parameter.
- Concurrency.NextKeeps: a check and the staging after it are one event, which `Concurrency.CheckIsAtomic` justifies.
- Indexing.NextKeeps: a database whose schema is not initialised yet is waiting like any other, an unqualified one is
  giving up.
- Receiver.ReceiveStream: errors of the stage's own file system while payloads are written.
- Staging.Storage.ValidateLayout: the enumeration is one step.
- Recovery.UnfamiliarIsSafe: validation is one step; an entry that appears while the names are being enumerated counts
  as seen or as appearing after it, whichever the enumeration makes of it.
- Staging.Storage.RemoveStaging: failing system calls, directory syncs and entries that arrive between the passes; those
  are in `ownership.dfy` and `recovery.dfy`, on values. The third pass over the names is a guard of the next step there.
- Staging.Storage.RecoverStage: error returns and directories that cannot be opened.
- Staging.Storage.Reserve: failures between its steps and the cleanup after them; a transfer that fails there is one
  that died there.
- Mounts.FindStorageMounts: validation of bind options, volume names and subpaths is one verdict per mount.
- Example.DatedConversation: its manifest codec knows one manifest; JSON itself is a parameter.
- Ustar.HeadersFaithful: the records of extended headers are sizes only; names are ASCII and fit the name field.
- The order of the inventory, of lock acquisition and of the mount tables (all sorted in the source): no result depends
  on it; that the mount above the home sorts first is built into the selection.
- `Version` and `CWD` of the session metadata, invalid UTF-8 as distinct from invalid JSON.
- Zone offsets of less than a minute, which RFC 3339 cannot carry.
- The conversion of times to microseconds follows the system library's, which is not part of the repository.
- Permissions, owners and link counts beyond what recovery looks at; the coordinator file's own checks.
- Publisher.InstallOne: makes no directories; that a link is preceded by making its directory, and what it means for
  crashes, is in `disks.dfy`. A failed `Mkdirat` or directory sync stops the publication there as a failed link does.
- Durability.CrashesConverge: directories are made and lost only, never removed by anyone else, and one that is there
  can be opened.
- Timeouts and cancellation: any step may fail instead.
- Edits of live files by programs that do not take the writer locks.
- Slots that something foreign creates in a stage, and entries it removes: foreign entries have other names and stay.
- Container inspection apart from mounts, transports, helper processes, configuration: single decisions or plumbing.
