# Eventline, verified

Eventline is an execution journal: programs enter and leave scopes and record events in memory, write them to a file as
they happen, and read crashed or exported files back. This project models the parts of Eventline that carry state and
proves what they promise. Methods and classes follow the imperative source; each is proved against plain values (a
vector searched linearly, a recursive forest, a fold over entries, a protocol step), and the promises are lemmas about
those values.

| file | what it models |
|---|---|
| Core, PositionIndex, Retention | shared value types; the first/count hash index; the plain vectors the buffer must agree with |
| Buffer | `Scopes` and `Records`: deques with logical offsets, indexes, eviction, compaction, lazy record index |
| Forests, Replay, RunTree | scope forests and their listings; the two explicit-stack traversals; what they show of a loaded run |
| Hierarchy | parent links as a functional graph, and the repair that removes one link per cycle |
| Wire | the versioned JSONL entries over an abstract JSON value |
| Recovery, Routing, LegacyRuns, Loading | the crash-log loader: its meaning, which run each line goes to, and its imperative form |
| Merging, MergedMessages, LoadedRuns | when the order and repetition of fragments matter, and what a load of several files returns |
| Journaling, Ledger, LiveJournal | journal operations and the stream their writer receives; what the calls alone say of it; the journal object and the scope guard |
| RoundTrip, MessageRecovery, Export | loading any prefix of that stream, exit messages included, and loading a snapshot export |
| BackgroundWriter, WriterCalls, WriterThread | the background writer as a transition system, what becomes of the calls it gets, and the objects refining it |
| ScopeContext, Runtime | scope stacks of threads and wrapped futures, their isolation, and the guards of async scopes |
| Rotation, LogFile, RotatedRecovery | log rotation on a directory, the rotating file writer, and loading a journal back from a rotated log |

Each file holds one module of the same name. `dafny verify dfyconfig.toml` checks everything.

Main results: the indexed store is indistinguishable from a plain vector for every sequence of operations, and its
compactions move no more scopes than the vector evicts (`Buffer.Scopes.Run`, `Buffer.Records.Run`); both tree
traversals give the one forest that a description without recursion order allows (`Replay.ScopeTree`,
`Replay.RenderScopeTree`, `Forests.ForestUnique`); cycle repair (`Hierarchy.RepairTheorem`); a journal that trims,
evicts and searches hands out exactly what its calls say (`Ledger.RunAgrees`, `Ledger.MeasuredExit`); for any files,
every scope of every run of a load appears exactly once in its tree (`LoadedRuns.LoadedTree`), every header line is in
exactly one run (`HeadersDelivered`), each versioned run is the completion of its own entries (`VersionedRunLoaded`)
and does not depend on their order (`LoadOrderInsensitive`), and unversioned lines fall into exactly the runs that
repeated identifiers delimit (`LegacyRuns.LegacySegments`); recovery from any prefix of a journal's output
(`RoundTrip.CrashRecovery`), from its export (`Export.SnapshotRoundTrip`), and from a log that was rotated and
reopened on the way (`RotatedRecovery.RotatedRecovery`); the writer protocol over all runs
(`BackgroundWriter.WriterSafety`, `FlushAcknowledged`, `BetweenClears`, `WriterCalls.WritesInOrder`); async isolation
over all interleavings (`ScopeContext.Isolation`, `PollRestores`); and the log history across rotations
(`LogFile.LogKept`).

Four statements that sound true are false of the code. For each there is an input that shows it, and the exact law.
- "Every accepted entry is written or counted as dropped": a panicking worker loses queued messages
  (`BackgroundWriter.PanicLosesMessages`). They are conserved exactly if it did not panic on a message (`WriterSafety`).
- "A rotation discards the last backup": not with a gap before it (`Rotation.GapKeepsOldBackup`). It does so exactly if
  the slot before it is occupied (`RotationKeepsHistory`).
- "A repeated record is dropped": not if another one came first under its identifier (`Merging.LaterRepeatIsKept`). It is
  dropped exactly if it equals the first one retained (`Merging.DroppedExactlyIf`).
- "Snapshots of a scope merge to the same messages in any order": not if an open scope's message was replaced
  (`MergedMessages.MessagesDependOnOrder`). Two of them do exactly if they agree as `MessagesCommute` says.

## Model

| member | source | states |
|---|---|---|
| PositionIndex.EnterIndexes | src/journal/buffer.rs:131-138 | adding an entry keeps, for every identifier, `first` as the least key and `count` as the multiplicity |
| PositionIndex.LeaveIndexes | src/journal/buffer.rs:186-203 | so does vacating one of several duplicates, the first one included |
| PositionIndex.DropVacantFront | src/journal/buffer.rs:205-208 | dropping a vacant front slot while advancing the base changes nothing the index says |
| Retention.EvictionBoundary | src/journal/buffer.rs:180-204 | eviction cuts at one boundary: behind it only open scopes survive, beyond it everything, and exactly the oldest closed ones go |
| Retention.TrimLeavesAtMost | src/journal/buffer.rs:180-204 | a trim leaves exactly min(max, closed) closed scopes and every open one, and removes no more than that |
| Retention.EvictOneMore | src/journal/buffer.rs:181-204 | evicting one by one is evicting that many at once |
| Buffer.Scopes.Push | src/journal/buffer.rs:123-144 | the retained scopes grow by the new one, with no overflow of `base + entries.len()` and nothing else asked of the caller |
| Buffer.Scopes.Get | src/journal/buffer.rs:146-149 | an indexed lookup is a linear search for the first match, duplicates included |
| Buffer.Scopes.Slot | src/journal/buffer.rs:146-154 | the indexed slot exists, is in range and holds the first match |
| Buffer.Scopes.GetAt | src/journal/buffer.rs:297-305 | positional access skips vacant slots |
| Buffer.Scopes.Update | src/journal/buffer.rs:151-154 | updating a scope through its slot replaces the first match and keeps all indexes |
| Buffer.Scopes.FinalizeExit | src/journal/buffer.rs:372-397 | closing succeeds exactly if the first match exists and is open; the duration returned, and frozen in its clock, is the monotonic time since its start, or the wall-clock time for a scope without a clock, never negative; nothing else changes |
| Buffer.Scopes.SetScopeExitMessages | src/journal/buffer.rs:344-361 | given messages replace earlier ones of the first match, absent ones keep them |
| Buffer.Scopes.Compact | src/journal/buffer.rs:160-178 | compaction moves every retained scope, in order, to key zero on and rebuilds consistent indexes |
| Buffer.Scopes.EvictOne | src/journal/buffer.rs:182-203 | the least closed key is the oldest closed scope; no unwrap fails |
| Buffer.Scopes.EvictTo | src/journal/buffer.rs:181-204 | the eviction loop is the plain-vector trim |
| Buffer.Scopes.DropVacant | src/journal/buffer.rs:205-208 | releasing vacant front slots is unobservable |
| Buffer.Scopes.Trim | src/journal/buffer.rs:180-215 | a trim is the plain-vector trim, leaves at most 64 slots or twice the retained scopes, and those are at most open plus max; without compaction every retained scope stays in its slot, with it all of them are moved once |
| Buffer.Scopes.Clear | src/journal/buffer.rs:446-459 | nothing is retained and the store stays consistent |
| Buffer.Scopes.Perform | src/journal/buffer.rs:499-609 | each operation answers, changes and evicts what the plain vector does, and moves scopes only in a trim that compacts |
| Buffer.Scopes.Run | src/journal/buffer.rs:499-609 | so does every sequence of operations; the scopes moved by its compactions are at most those the plain vector evicts |
| Buffer.Records.Push | src/journal/buffer.rs:46-65 | a record is appended; the index, if built, keeps up; keys never overflow |
| Buffer.Records.Reindex | src/journal/buffer.rs:67-72 | rebasing to zero keeps an existing index right and builds none otherwise |
| Buffer.Records.BuildIndex | src/journal/buffer.rs:74-88 | the index built from the deque describes it |
| Buffer.Records.Trim | src/journal/buffer.rs:90-108 | the newest `max` records remain; no unwrap fails with duplicate identifiers |
| Buffer.PopKeeps | src/journal/buffer.rs:94-103 | popping the front record finds the next duplicate, if there is one, and the index stays right |
| Buffer.Records.Clear | src/journal/buffer.rs:446-459 | nothing is retained; an index that exists stays, empty |
| Buffer.Records.Probe | src/journal/buffer.rs:311-315 | the read-locked attempt answers exactly if the index exists, with the first match |
| Buffer.Records.LookupBuilding | src/journal/buffer.rs:317-322 | the write-locked rest answers with the first match, whoever built the index |
| Buffer.Records.GetRecordById | src/journal/buffer.rs:310-323 | a lookup returns the first match as of its first or last moment, whatever other threads do in between |
| Buffer.Records.Run | src/journal/buffer.rs:310-323 | over any sequence of operations, with such interference, answers are those of a plain vector: the lazy index is unobservable |
| Replay.IndexChildren | src/replay.rs:207-215 | every scope is listed under its parent, in input order |
| Replay.BuildNode | src/replay.rs:168-202 | the frame machine for one root terminates and builds its path-avoiding subtree |
| Forests.ForestUnique | src/replay.rs:155-157 | there is only one forest with all roots and all children of each node in input order and no identifier twice on a path |
| Replay.ScopeTree | src/replay.rs:158-205 | for every input, orphans, duplicates and cycles included, the result is that forest |
| Replay.VisitTop | src/replay.rs:229-252 | one turn of the printing machine reduces the pending work and prints what it owes |
| Replay.RenderScopeTree | src/replay.rs:217-255 | for every input the lines, read back by their depth, are that same forest, its roots unindented and in input order |
| Replay.LineTextShape | src/replay.rs:234-241 | a line is two spaces per level, the name or `unnamed`, `#` and the number |
| Replay.RenderedPair | src/replay.rs:293 | the text of a root and its child |
| Hierarchy.RankCycle | src/replay/load.rs:379-388 | after a walk closes a cycle and one link is removed, everything walked can be ranked |
| Hierarchy.CutsRepair | src/replay/load.rs:364-392 | the repair, although it edits links while following them, cuts only scopes on cycles, never two that reach each other, and leaves a ranked graph |
| Hierarchy.RepairTheorem | src/replay/load.rs:362-392 | the result is closed and acyclic, and every cycle loses exactly one link, from a scope on it |
| Hierarchy.AcyclicHasNoCycle | src/replay/load.rs:362-363 | a ranked graph has no scope that is its own ancestor |
| Hierarchy.AcyclicNeedsNoCut | src/replay/load.rs:362-392 | a hierarchy without cycles is left alone |
| Hierarchy.CutFollowsOrder | src/replay/load.rs:364-392 | of two scopes that are each other's parent, the one listed first loses its link |
| Wire.DeserializeFields | src/format.rs:63-86 | the decoding loop accepts an object exactly if all its members decode, in whatever order they come |
| Wire.ValueRoundTrip | src/format.rs:40-81 | every field value survives, all NaNs becoming one, and the string "NaN" stays a string |
| Wire.FieldsRoundTrip | src/format.rs:31-86 | so does a whole field map |
| Wire.ScopeRoundTrip | src/render.rs:270-320 | scope metadata survives the wire unchanged |
| Wire.RecordRoundTrip | src/render.rs:241-307 | a record line decodes to the record and the scope it was written from |
| Wire.RecordMembers | src/render.rs:241-252 | every record line carries version, run, identifier, time and scope under their documented names, and the scope only if there is one |
| Wire.WireEqualMeansSame | src/replay/load.rs:293-303 | two records have equal wire values exactly if they are the same once NaNs are identified: the encoding is injective |
| Wire.RecordLine | src/replay/load.rs:461-523 | a record line is accepted for its run, after the version, run and embedded-scope checks |
| Wire.ScopeLine | src/replay/load.rs:461-523 | so is a scope line |
| Wire.LineRules | src/replay/load.rs:461-512 | newer versions are refused whatever else the line holds; an accepted line is of version one with a nonempty run identity, or unversioned |
| Wire.EntrySaid | src/replay/load.rs:184-233 | whatever is accepted, record and scope are what the named members of the line say; exits name their scope and an embedded scope is the record's |
| Wire.FieldsSaid | src/format.rs:40-86 | no field is left out, and each value is what its tag and content say |
| Recovery.MissingCovers | src/replay/load.rs:339-361 | placeholders are exactly the needed and unknown identifiers, each once |
| Recovery.MissingInOrder | src/replay/load.rs:339-361 | they come in the order of first reference |
| Recovery.MissingParentsFirst | src/replay/load.rs:339-346 | missing parents come before scopes that only records refer to |
| Recovery.PlaceholdersFollow | src/replay/load.rs:348-361 | placeholders follow the scopes read and say nothing but their identifier |
| Recovery.CompletionReported | src/replay/load.rs:344-391 | one issue per placeholder and one per removed link, by kind and source, without a line |
| Recovery.FinalScopesRepaired | src/replay/load.rs:337-394 | a finished run has distinct identifiers, present parents and record scopes, no cycle, one removed link per old cycle, and is otherwise the history followed by placeholders |
| Recovery.UnfinishedScopes | src/replay/load.rs:32-51 | exactly the scopes with no exit in their metadata and none among the records |
| Routing.RouteKeeps | src/replay/load.rs:524-547 | routing keeps versioned identities distinct and the open legacy run last and nameless, and never sends a record to a legacy run that has its identifier |
| Routing.LinesKeepRouting | src/replay/load.rs:422-559 | the routing invariant holds after any lines |
| Routing.LineAccounted | src/replay/load.rs:448-523 | a rejected line leaves one issue and changes no run; any other line leaves none of that kind |
| Routing.LinesAccounted | src/replay/load.rs:422-559 | the rejection issues of a file are as many as its rejected lines |
| Routing.VersionedRunIsFold | src/replay/load.rs:524-558 | whatever is interleaved with it, a versioned run is the fold of its own entries in order |
| Routing.FilesFoldPerRun | src/replay/load.rs:99-112 | the same across several files |
| Loading.RunBuilder.AddScope | src/replay/load.rs:259-288 | the table-driven merge is the merge into the first scope with that identifier; contradictions leave it and are reported |
| Loading.RunBuilder.AddRecord | src/replay/load.rs:290-335 | a record is dropped exactly if it equals the first one retained under its identifier, and issues follow the first exit |
| Loading.RunBuilder.PushRecord | src/replay/load.rs:311-333 | a retained record contradicts exactly if its scope's first exit differs |
| Loading.RunBuilder.Absorb | src/replay/load.rs:548-558 | one accepted line adds its headers, scope and record, with their issues in that order |
| Loading.AddPlaceholders | src/replay/load.rs:339-361 | the loop appends one placeholder per missing reference, in order of first reference |
| Loading.WalkUp | src/replay/load.rs:372-390 | the inner loop terminates and visits exactly the walk up to the first repetition or settled scope |
| Loading.RepairCycles | src/replay/load.rs:362-392 | editing links in place removes exactly the links that the repair of the original graph removes |
| Loading.RunBuilder.Finish | src/replay/load.rs:337-394 | finishing gives the repaired run and one issue per placeholder and per removed link |
| LegacyRuns.LegacySegments | src/replay/load.rs:534-547 | unversioned lines fall into consecutive segments, one run each holding exactly its entries in order; a new one begins exactly where a record identifier is repeated, reported once |
| LegacyRuns.LegacyRunIsFold | src/replay/load.rs:534-547 | without repetitions they add at most one run, which is the fold of their entries after what the open run held |
| LegacyRuns.RepetitionStartsRun | src/replay/load.rs:534-542 | a repeated identifier starts one new run with one inferred boundary |
| LegacyRuns.LegacyEnds | src/replay/load.rs:435-441 | headers and versioned entries end the open legacy run, blank and rejected lines do not |
| LegacyRuns.LegacyFileLoads | src/replay/load.rs:99-112 | an unversioned file without repetitions loads as one run of all its entries |
| LegacyRuns.EntryGoesToOneRun | src/replay/load.rs:524-559 | an entry and the headers before it go to the end of one run, an existing one or a new last one, and no other run changes |
| LegacyRuns.RejectionsLocated | src/replay/load.rs:422-523 | each rejected line is reported once, in order, with its physical line number |
| LegacyRuns.IssuesNameLine | src/replay/load.rs:407-420 | whatever is reported about a line names its file and its number |
| Loading.Loader.Route | src/replay/load.rs:524-547 | the tables find or create the run that a search through all runs would |
| Loading.Loader.Deliver | src/replay/load.rs:548-558 | a line changes its own run and no other |
| Loading.Loader.AbsorbLine | src/replay/load.rs:448-559 | one line does what its meaning says |
| Loading.Loader.Read | src/replay/load.rs:422-446 | a file is the sequence of its lines |
| Loading.Loader.Finish | src/replay/load.rs:561-577 | headers after the last entry form a run of their own; every run is finished |
| Loading.LoadJsonlFiles | src/replay/load.rs:99-112 | loading files is the pure load that all theorems are about |
| Merging.NeverReopened | src/replay/load.rs:266-277 | first metadata and a first exit time stand, whatever arrives later |
| Merging.AgreeingFold | src/replay/load.rs:259-335 | agreeing fragments in any order raise no issue and leave exactly what they say |
| Merging.QuietExactlyIfAgree | src/replay/load.rs:259-335 | the entries of a run raise no issue exactly if they agree on parents, entry times, names, exit times, records and exits: every contradiction is reported |
| Merging.ConflictsNamed | src/replay/load.rs:266-333 | a second record under an identifier is reported as such, other metadata or another outcome of a scope as a conflict about the scope |
| Merging.DroppedExactlyIf | src/replay/load.rs:290-310 | a record adds nothing exactly if the first one retained under its identifier is the same, NaNs identified |
| Merging.LaterRepeatIsKept | src/replay/load.rs:290-310 | a repetition of a later, contradicting record is kept again |
| MergedMessages.MessagesCommute | src/replay/load.rs:266-287 | two snapshots of a scope merge to the same messages in either order exactly if neither replaces a message of its like and the closed one has all messages of the open one |
| MergedMessages.MessagesDependOnOrder | src/replay/load.rs:276-280 | two open snapshots with different messages merge to whichever is read last |
| MergedMessages.MergeWithMessages | src/replay/load.rs:259-288 | snapshots that agree pairwise on their messages give the very same scopes, in any order and with any repetition |
| Merging.RepetitionIsSilent | src/replay/load.rs:290-303 | repeating an entry raises no issue and adds no record |
| RunTree.EachScopeOnce | src/replay.rs:158-205 | in a closed acyclic run with distinct identifiers each scope is in the forest exactly once |
| LoadedRuns.LoadedTree | src/replay.rs:155-255 | for any files and any run of their load, each of its scopes, placeholders included, is once in its tree, on one line, under its repaired parent, and every line is one of its scopes |
| LoadedRuns.HeadersDelivered | src/replay/load.rs:435-577 | every header line of every file is in exactly one run of the load, those after the last entry included |
| LoadedRuns.VersionedRunLoaded | src/replay/load.rs:99-112 | a run identity in any file gives exactly one run, the completion of the fold of its entries over all files |
| LoadedRuns.LoadedInOrder | src/replay/load.rs:561-577 | the runs of a load are those built, in order of their first entry, with their headers and records, then one for headers left over |
| LoadedRuns.LoadOrderInsensitive | src/replay/load.rs:259-394 | the same agreeing entries in other files, orders and repetitions load to a run with the same records, scopes, exit times, placeholders and unfinished scopes; the same parents if nothing is cut; the same messages if the entries agree on them |
| LoadedRuns.AgreeingLoadIsQuiet | src/replay/load.rs:259-335 | files of agreeing versioned entries load without any conflict, whatever their order |
| Journaling.ExitAtMostOnce | src/journal/mod.rs:159-190 | a coherent stream exits no scope twice |
| Journaling.StepKeeps | src/journal/mod.rs:65-278 | every operation keeps the journal invariant: numbered scopes, increasing records, faithful snapshots, open scopes retained |
| Journaling.RunKeeps | src/journal/mod.rs:65-278 | so does every run that is too short to wrap the counters |
| Journaling.TrimKeeps | src/journal/mod.rs:210-216 | trimming scopes never makes an open scope unavailable |
| Journaling.NoSecondExit | src/journal/mod.rs:159-208 | over any run, whatever is trimmed, cleared or repeated, no scope has two exit records |
| Journaling.FirstExitSucceeds | src/journal/mod.rs:159-208 | an exit is recorded exactly if the scope was entered, not cleared, and not exited before; it carries the caller's outcome and time |
| Journaling.OwnRun | src/journal/mod.rs:65-106 | a journal given only its own scopes as parents and record scopes refers only to scopes it has entered |
| Ledger.RunAgrees | src/journal/mod.rs:65-278 | over any run, every scope entered, every record, every retained scope with its clock and messages, and the current scope are what the calls alone say, whatever was evicted or cleared |
| Ledger.EventShown | src/journal/mod.rs:124-157 | an event is handed out with its scope as it is by then; only a scope that exited, was cleared or never entered can be missing |
| Ledger.MeasuredExit | src/journal/buffer.rs:372-397 | an exit record carries the monotonic time since the operation that entered the scope, zero if the clock ran backwards, capped at 64 bits |
| Journaling.WrittenIsEmitted | src/journal/mod.rs:50-59 | a writer attached first receives every entry of the journal as long as nothing is recorded quietly |
| LiveJournal.Journal.PushNewScope | src/journal/mod.rs:71-89 | the new scope is retained under a fresh identifier and its metadata written |
| LiveJournal.Journal.WriteScopeMetadata | src/journal/mod.rs:108-118 | the lookup behind `expect` succeeds |
| LiveJournal.Journal.EnterScopeNamed | src/journal/mod.rs:65-69 | the new scope has the given name and time and the current scope as parent, is retained open with its clock started, written, and current |
| LiveJournal.Journal.EnterScopeUnnamed | src/journal/mod.rs:91-106 | likewise without a name; an explicit parent wins over the current scope |
| LiveJournal.Journal.SetWriter | src/journal/mod.rs:50-59 | a new writer first receives the metadata of every retained scope, in order |
| LiveJournal.Journal.RecordNoWriteInScope | src/journal/mod.rs:135-157 | an event recorded without writing is retained under the given scope and returned with its retained metadata |
| LiveJournal.Journal.RecordEvent | src/journal/mod.rs:192-198 | the record kept has the next identifier, the current scope and the given time, kind, name and fields; a writer gets it with that scope's retained metadata |
| LiveJournal.Journal.ExitScopeNoWrite | src/journal/mod.rs:159-190 | an exit without writing closes and records exactly as one with it, and returns what it would have written |
| LiveJournal.Journal.ExitScope | src/journal/mod.rs:159-208 | an identifier is used up even if there is nothing to exit; otherwise the record has scope, outcome, time and measured duration, and only leaving the current scope moves it to the parent |
| LiveJournal.Journal.Clear | src/journal/mod.rs:275-278 | everything retained goes, counters stay |
| LiveJournal.Journal.Run | src/journal/mod.rs:23-284 | any sequence of calls, quiet ones and new writers included, leaves buffer and writer as the plain vectors say |
| LiveJournal.ScopeGuard.Exit | src/core/scope.rs:107-112 | only the first exit reaches the journal |
| LiveJournal.ScopeGuard.Live | src/core/scope.rs:104-137 | however a guard is used and dropped, its scope is exited once, by the first use |
| LiveJournal.GuardedScope | src/journal/mod.rs:280-283 | a guarded scope is written once entered and once exited, with the outcome of the guard's first use, and the current scope is as before |
| RoundTrip.RetainedIdentifiers | src/journal/mod.rs:71-190 | retained scope and record identifiers are strictly increasing and below their counters |
| RoundTrip.LineReadsBack | src/journal/writer.rs:353-367 | the line of a writer call is read back as that call |
| RoundTrip.ReadsOneRun | src/replay/load.rs:422-559 | a file of agreeing entries of one run is read as their fold |
| RoundTrip.StreamFolds | src/journal/mod.rs:65-118 | reading back a coherent stream loses nothing, confuses nothing and complains about nothing |
| RoundTrip.OlderParentsNeedNoCut | src/replay/load.rs:362-392 | parents older than their children leave nothing to repair |
| RoundTrip.CrashRecovery | src/journal/mod.rs:192-208 | from any prefix of a journal's output: no issues, exactly the scopes and records written, and as unfinished exactly the scopes whose exit was not |
| MessageRecovery.StepMessages | src/journal/mod.rs:65-278 | exit messages of a scope are added and replaced from snapshot to snapshot, never withdrawn |
| MessageRecovery.SnapshotMessages | src/replay/load.rs:276-286 | so merging the next snapshot leaves exactly its messages |
| MessageRecovery.CrashMessages | src/journal/mod.rs:192-208 | each scope recovered from a prefix has the exit messages of its last snapshot in that prefix |
| RoundTrip.TornLine | src/replay/load.rs:448-460 | a torn last line adds one `InvalidLine` issue and changes nothing else |
| Export.IndexScopes | src/replay.rs:89-95 | the first scope with an identifier is indexed |
| Export.RecordsJsonl | src/journal/mod.rs:248-262 | the export is one line per retained scope, then one per retained record with its retained scope |
| Export.ExportedRecord | src/journal/mod.rs:248-262 | a record line has its retained scope, and none only if that scope is not retained |
| Export.DanglingIsGone | src/journal/buffer.rs:180-204 | a scope that is referred to but not retained was cleared or has exited |
| Export.SnapshotRoundTrip | src/journal/mod.rs:248-262 | loading the export of any reachable nonempty journal gives its records and scopes in order, then one placeholder and one issue per referenced scope that is gone |
| BackgroundWriter.StepKeepsInv | src/journal/writer.rs:124-225 | every step of producers, worker and owner keeps the protocol invariant |
| BackgroundWriter.RunKeepsInv | src/journal/writer.rs:124-225 | so does every interleaving |
| BackgroundWriter.WriterSafety | src/journal/writer.rs:114-225 | bounded queue; blocking drops nothing while the worker lives; handled, in hand and queued are the accepted messages in order exactly without a panic on a message |
| BackgroundWriter.EveryWriteCounted | src/journal/writer.rs:188-210 | over any run, the writes whose call returned are as many as the entries accepted plus those dropped; in best-effort mode that is every write there was |
| WriterCalls.StepAccepts | src/journal/writer.rs:188-256 | a call's message is accepted exactly if the writer is open, its worker alive and its queue not full |
| WriterCalls.WritesInOrder | src/journal/writer.rs:188-252 | over any run, the entries accepted, and those handed to the inner writer, are the arguments of the writes called, each record with its scope, in order, and of all that returned if nothing was dropped; likewise the run identities |
| WriterCalls.LatestErrorShown | src/journal/diagnostics.rs:28-48 | the latest error shown is that of the latest operation that failed since the last clear, with its name |
| BackgroundWriter.PanicLosesMessages | src/journal/writer.rs:127-162 | a run in which a panic loses accepted messages and no counter of drops shows it |
| BackgroundWriter.OriginMeans | src/journal/writer.rs:129-151 | the error a flush reports is the first failure since the previous flush, its own included, and there is none otherwise |
| BackgroundWriter.ReportedOnce | src/journal/writer.rs:150 | no failure is reported by two flushes |
| BackgroundWriter.FlushAcknowledged | src/journal/writer.rs:254-267 | an acknowledged flush was handled after everything accepted before it, with that answer |
| BackgroundWriter.BetweenClears | src/journal/diagnostics.rs:28-55 | after a clear and up to the next, the failure counter shows each operation that failed since once, the shutdown flush included, and the drop counter each dropped entry, both modulo the counter width |
| BackgroundWriter.BeforeFirstClear | src/journal/diagnostics.rs:28-55 | before any clear they show everything since the writer was made, a failure to start included |
| WriterThread.AsyncWriter.constructor | src/journal/writer.rs:83-172 | a writer starts running with at least one queue slot, or with its start failure recorded |
| WriterThread.AsyncWriter.Enqueue | src/journal/writer.rs:188-210 | in best-effort mode an entry is accepted, dropped under pressure without an error, or refused with one; in blocking mode the call waits for room and the entry is accepted unless the worker is gone |
| WriterThread.AsyncWriter.WriteRecord | src/journal/writer.rs:247-252 | the message is the given record with the given scope |
| WriterThread.AsyncWriter.WriteScope | src/journal/writer.rs:240-245 | scope metadata is sent exactly if the inner writer wants it |
| WriterThread.AsyncWriter.SetRunId | src/journal/writer.rs:231-238 | a run identity waits for room in either mode and is accepted unless the worker is gone |
| WriterThread.AsyncWriter.Finish | src/journal/writer.rs:131-153 | the worker records a failure, keeps the first one, and answers flushes with it |
| WriterThread.AsyncWriter.Run | src/journal/writer.rs:114-225 | any interleaving of steps leaves the object in the protocol's state |
| WriterThread.AsyncWriter.Flush | src/journal/writer.rs:254-267 | a flush terminates, with everything accepted before it handled and the first failure since the previous flush, or, if the worker panics meanwhile, with an error |
| WriterThread.AsyncWriter.Drop | src/journal/writer.rs:213-225 | dropping the writer terminates with everything accepted handled and a last flush, unless the worker panics on a message |
| ScopeContext.Isolation | src/runtime/scope_context.rs:74-100 | under any interleaving, each thread and future finds its captured stack with only its own enters and exits applied |
| ScopeContext.ParentIsOwnTop | src/runtime/mod.rs:356-370 | a scope's parent is the top of the logical stack of whoever enters it |
| ScopeContext.WaitingIsUntouched | src/runtime/scope_context.rs:190-208 | nobody acts for an owner that is waiting for a poll |
| ScopeContext.PollRestores | src/runtime/scope_context.rs:193-208 | a poll or drop leaves the caller's stack as found, and the future's stack in the future, however it ends |
| Runtime.RemoveLastAt | src/runtime/mod.rs:393-402 | removing a scope takes its last occurrence and nothing else |
| Runtime.ScopeStacks.Enter | src/runtime/mod.rs:356-370 | the parent is the top of the acting owner's logical stack, the scope goes on top of it, and no other stack changes |
| Runtime.ScopeStacks.Exit | src/runtime/mod.rs:376-402 | exactly the last occurrence goes, if there is one |
| Runtime.ScopeStacks.Install | src/runtime/scope_context.rs:197-202 | installing a context swaps two stacks |
| Runtime.ScopeStacks.Restore | src/runtime/scope_context.rs:204-208 | restoring swaps them back |
| Runtime.ScopeStacks.Poll | src/runtime/scope_context.rs:74-100 | with polls nested inside in any way, the caller's stack is afterwards what it was |
| Runtime.RuntimeScopeGuard.Exit | src/core/scope.rs:173-178 | only the first exit is passed on |
| Runtime.RuntimeScopeGuard.DropAsync | src/runtime/scope_context.rs:178-188 | dropping an unused async guard aborts its scope, or fails it while unwinding, once |
| Runtime.AsyncScope.Live | src/runtime/scope_context.rs:125-188 | the first poll enters the scope under the one current where the future was made; it is exited exactly once with the outcome its ending calls for, a drop while unwinding included; a future never polled enters nothing and has no guard |
| Rotation.SlotNamesDistinct | src/journal/rotation.rs:59-63 | backup names are distinct and differ from the log's |
| Rotation.Rotate | src/journal/rotation.rs:43-63 | the log becomes `.1`, `.1` becomes `.2` and so on, the last one giving way only if something moves in; no other file changes |
| Rotation.RotationKeepsHistory | src/journal/rotation.rs:43-57 | from any directory, a rotation loses the last backup exactly if the slot before it is occupied, and nothing else |
| Rotation.GapKeepsOldBackup | src/journal/rotation.rs:48-53 | with the backup before it missing, an old last backup stays in place |
| LogFile.RotatedKeeps | src/journal/writer.rs:444-453 | rotating keeps the log invariant |
| LogFile.StepKeeps | src/journal/writer.rs:392-471 | so does every write, header and reopening |
| LogFile.LogConserved | src/journal/writer.rs:392-471 | from any directory, what rotations discarded followed by what the files hold is what they held before followed by what was asked for, apart from blank lines |
| LogFile.LogKept | src/journal/writer.rs:392-471 | opened in a directory without its files, the files are a suffix of everything written, all of it while rotations do not exceed backups; the size is the active file's; files pass the limit only by one long line or a final header |
| LogFile.WriteLog | src/journal/writer.rs:392-471 | making a writer on such a directory and using it leaves exactly those files there |
| LogFile.WrittenAsRequested | src/journal/writer.rs:433-471 | apart from blank lines, what is written is what was asked for, in order |
| LogFile.RotatingFileWriter.constructor | src/journal/writer.rs:392-429 | opening counts what is there, and rotates first if it is already too long |
| LogFile.RotatesExactlyWhenFull | src/journal/writer.rs:392-464 | a line makes the log rotate exactly if it would take a nonempty file past the limit, opening exactly if the file has reached it, a header never |
| LogFile.ActiveAfter | src/journal/writer.rs:433-470 | a line goes to the end of the active file or into a new one, a header too, after one blank line unless the file is empty |
| LogFile.RotatingFileWriter.WriteLine | src/journal/writer.rs:455-470 | the check before a write and the write itself do to the directory what the slots describe |
| LogFile.RotatingFileWriter.WriteHeader | src/journal/writer.rs:433-442 | a header bypasses the limit and is set off by a blank line |
| LogFile.RotatingFileWriter.Run | src/journal/writer.rs:392-471 | any sequence of operations, from any files, leaves the directory in the state the slots describe |
| RotatedRecovery.RotatedRecovery | src/replay/load.rs:95-112 | a journal's output up to any point, cut into files by rotation and reopening, with headers in between, loads without issues to exactly its scopes, records and unfinished scopes while rotations do not exceed backups |
| RotatedRecovery.RotatedRecords | src/replay/load.rs:95-112 | with any number of rotations the records loaded are exactly those from some entry of the stream on |

## Left out

- JSON text and UTF-8: lines are abstract (blank, header, not JSON, or a JSON value), so a torn line is one that is not JSON.
- Structs and tagged enums written as JSON arrays, which the JSON library also accepts, are rejected by the model's decoder.
- Floating point: finite floats are real numbers, so `-0.0`, rounding of integers read as floats and float text are not modelled.
- The texts of issues and errors; an issue is its kind and place, an error of the inner writer a number.
- Clocks: timestamps and monotonic instants are inputs, and elapsed-time queries are not modelled.
- Buffer.Scopes.Push: asks for fewer than `usize::MAX` retained scopes, which is all a deque can hold; likewise for records.
- BackgroundWriter.BetweenClears: treats reporting an error and clearing as single steps, although their counters and latest error are separate atomics, so a snapshot taken between the parts can differ.
- Runtime.ScopeStacks.Poll: futures being polled cannot be polled again, which the borrow checker guarantees in the source.
- `emit`, which records under a scope given by the thread's stack rather than the journal's current scope.
- Locks: each locked section is one atomic step; only the gap inside a record lookup is left open to interference.
- LoadedRuns.LoadOrderInsensitive: promises the same parent links only without cycles, because which link of a cycle is cut follows the order of the scopes (`Hierarchy.CutFollowsOrder`).
- Journaling.RunKeeps: covers runs of at most 2^64 - 1 operations, before identifier counters could wrap.
- LogFile.LogKept: assumes that the bytes written fit 64 bits, that no file operation fails and that no file is a directory.
- RoundTrip.CrashRecovery: about a writer attached before anything is entered; what a later one receives is stated by `LiveJournal.Journal.Run` only.
- RotatedRecovery.RotatedRecovery: text is a parameter: a line's JSON is written as bytes that are read back as that JSON, and headers are recognised.
- Journal writers that fail or do not want scope metadata.
- `ReplayIndex`, `scope_outcomes`, `failed_scopes`, `slowest_scopes`: lookups and a stable sort over the same data.
- The runtime's record cap, which only every 128th `emit` applies, and `runtime::clear`, which wipes one thread's stack.
- Console and text rendering, `MultiWriter`, configuration, level filtering, macros, `log` and `tracing` bridges.
