# Verification of Into Markdown's installer, fixture writers and release tools

A Dafny model of the parts of the repository whose correctness lies in state and in bytes, with
proofs about every input, every fault and every run. `dafny verify dfyconfig.toml` checks it all.

**The installer** (`Installer*.dfy`). The program changes a file system in a fixed order: lock
directory, staging tree, journal, rename into `versions`, symbolic links, and a two-stage
uninstall. `InstallerDisk` is the file system, `InstallerMachine` one process as steps that each
make one change and can fail before or after it, `InstallerSystem` any number of processes with
crashes, removal of a stale lock and, between any two steps, other programs that put any command at
`into-md` in a command directory or take it away.
A tree is the set of files it should have, those it has, and those copied only in part, so that a
crash can leave half of one behind; `archive-check` accepts exactly the complete trees.
`InstallerHost` is the program's own control flow as a class over the disk. It logs every choice it
makes, and `InstallerRuns` shows that each of its runs is a run of the machine, so that the theorems
about all instants of all runs are theorems about the program. `InstallerReach` constructs runs that
exist, `InstallerExposure`, `InstallerRevival` and `InstallerWitness` use them to show exactly where
the guarantees end. `InstallerJournal` is the journal's
text form (with `Numerals`) and `InstallerAuthority` the atomic file replacement that the machine takes for one step.
`InstallerCommands` and `InstallerRefusal` say what is left alone: commands of other programs and of
other directories, published versions, the links of an installation whose operation is refused.

**The compound-file writer** (`Cfb*.dfy`, `Utf16`, `Bytes`). `CfbDirectory` collects and orders
the paths, `CfbLinks` fills in the sibling links, `CfbWalk` follows them, `CfbChains` allocates
consecutive blocks and follows chains, `CfbLayout` says where everything lies, `CfbWriter` is the
writer with its loops, `CfbReader` a reader of [MS-CFB] files with one FAT sector, and
`CfbRoundTrip`, `CfbAllocation` and `CfbFormat` are the theorems, the last one about every field of
the file in literal offsets and values.

**The ZIP editors** (`Zip*.dfy`). `ZipArchive` prints abstract archives (APPNOTE sections 4.3.7,
4.3.12 and 4.3.16), `ZipEdits` walks bytes by offset as the program does, including what it does with
malformed input, and `ZipEncryption`, `ZipNames` and `ZipExtra` show what each walk does to the
archive that was printed. `ZipMeaning` says the same without their functions: which bits of which
fields are set, and what the bytes of each header are. **BIFF12 records** are in `XlsbRecords`.

**The spreadsheet oracle** (`Span*.dfy`): placing the cells of a table with spans, when the
coordinates come in order, and that placing inverts leaving out merged interiors. `SpanRecords` has
the sheets of any mix of tables and paged lines.

**Downloads** (`Acquire*.dfy`), **report reconciliation** (`Reconcile*.dfy`, `Partitions`,
`Corpus`, `OrderedDict`; `ReconcileHistory` and `PartitionHistory` say when runs are accepted and what
is then told of each case), **the audit archive** (`Evidence*.dfy`, `TextOrder`) and **the
dependency worklist** (`Worklist`).

Loops and in-place changes of the original are methods here, proved equal to a specification
function or directly against the property; the theorems are lemmas about those functions.

## Results that bound what is true

- Installing keeps a working command working except at one instant: when only the directory sync after
  publishing `current` is reported as failed, the new version is deleted under the link
  (`InstallerTheorems.LostSyncBreaksCurrent`, reached from any untouched disk by
  `InstallerWitness.LostSyncIsReachable`). A run of installs is called safe below if no such sync is
  lost and no other program takes away a command of the installation.
- Failing safe installs can leave `current` at a broken version exactly when, before
  them, `current` exists and does not lead to a complete version (`InstallerExposure.TornExactly`).
  An uninstall killed after deleting the versions and before unlinking `current` leaves such a disk,
  from any untouched one (`InstallerWitness.CurrentCanDangle`).
- That a removed tree whose deletion has begun is never renamed back is false when another program
  puts a command in place. A step makes such a revival possible exactly when it puts a command
  into the journaled directory while a tree is being deleted, the journal is still
  `uninstall-prepared` and there is no `versions` (`InstallerRevival.RevivalExactly`); runs without
  such a step restore a tree whole or not at all (`InstallerRollback.RollbackRestoresWhole`). From any
  untouched disk a run ends with a published version that lacks a file
  (`InstallerWitness.PartialTreeComesBack`).
- When no call fails, an install or uninstall succeeds exactly when nobody holds the lock, the journal is
  not one for another command directory and the command is not another program's; an install also
  needs a whole version or distribution (`InstallerRuns.RunInstall`, `InstallerRuns.RunUninstall`).
- A journal is read back exactly when its paths are clean and short
  (`InstallerJournal.JournalRoundTrip`).
- A compound file gives back every path exactly when no stream's path is a proper prefix of another
  path (`CfbRoundTrip.RoundTripOfEntries`).
- The invalid-name edit is right on every archive exactly when the target name is not empty
  (`ZipNames.SpoilRefinesExactly`).
- A table's coordinates come in order exactly when every cell but the last of its row takes a column
  (`SpanOrder.OneTableInOrder`).
- Lines after a table start over at the first row, so a sheet with both reports every placed cell that
  is also a field, and loses its order flag as soon as there are both
  (`SpanRecords.LinesAfterTable`).
- A reconciliation's report can be the base of another exactly when it has a case or one executable
  (`ReconcileStages.StagesAccept`, `ReconcileStages.ReportIdentified`, `ReconcileStages.StagesCanDiffer`).

## Model

| member | source | states |
|---|---|---|
| `InstallerDisk.StagingIsNotPublished` | tools/platform-release/installer.rs:781-789 | No staging name passes for a published version's 64-digit name |
| `InstallerDisk.NamesApart` | tools/platform-release/installer.rs:107-174 | Two processes share neither a staging name nor a name for removed versions |
| `InstallerSteps.HolderStepKeeps` | tools/platform-release/installer.rs:98-237 | Every step under the lock, whatever fails in it, keeps the invariant that ties journal, staging, removed trees and links to where the process stands |
| `InstallerSystem.OutsideTheLock` | tools/platform-release/installer.rs:88-99 | Before it holds the lock a process changes nothing but the presence of the lock and of an empty `versions` |
| `InstallerSystem.BystanderHarmless` | tools/platform-release/installer.rs:91-99 | What the others do before they hold the lock does not disturb the holder's invariant |
| `InstallerSystem.RunsKeep` | tools/platform-release/installer.rs:78-238 | The invariant of the disk and of every process holds after any run with any interleaving, crashes, stale-lock removals and changes of commands by other programs |
| `InstallerSystem.MeddlingHarmless` | tools/platform-release/installer.rs:479-482 | Whatever another program does to a command, the lock holder's invariant stays |
| `InstallerTheorems.MutualExclusion` | tools/platform-release/installer.rs:851-869 | With any number of concurrent installers and uninstallers at most one is past the lock, which then exists, and a step of any other changes no journal, version, removed tree, link or command: at most the prefix, an empty `versions` and the lock are new |
| `InstallerTheorems.StaleLockExcludes` | tools/platform-release/installer.rs:855-868 | A lock left by a killed process keeps everyone out until it is removed |
| `InstallerTheorems.SafeStepKeepsCommand` | tools/platform-release/installer.rs:98-154 | No safe step of an install makes a working command stop working |
| `InstallerTheorems.InstallsKeepCommandWorking` | tools/platform-release/installer.rs:98-154 | A command that works before installs works at every instant of every safe run of installs and of the recovery they start with, and then runs the old version or one being installed, complete |
| `InstallerTheorems.InstallHistoryIsSound` | tools/platform-release/installer.rs:272-312 | On histories of safe installs from an empty prefix `current` never names an incomplete tree |
| `InstallerTheorems.InstallPublishesCommand` | tools/platform-release/installer.rs:78-154 | After any crashes, failures and other processes, an install that succeeds leaves its version current, named by the authority file and complete, and nothing in progress, and its command runs it unless another program took the command away behind it |
| `InstallerTheorems.FailedInstallWithdraws` | tools/platform-release/installer.rs:113-153 | In every run an install that fails has taken away what it staged, and what it published for the first time, before it forgets its journal |
| `InstallerTheorems.CommandsStayLinked` | tools/platform-release/installer.rs:286-303 | An install past its linking has its command in place exactly until another program takes it away |
| `InstallerCommands.StepLeavesForeign` | tools/platform-release/installer.rs:273-312 | No step of any process, whatever fails in it, changes a command of another program or of another directory |
| `InstallerCommands.ForeignCommandStays` | tools/platform-release/installer.rs:285-291 | Over any run a command of another program stays until another program changes it, and a directory nobody works for keeps its command |
| `InstallerCommands.InstallKeepsOthers` | tools/platform-release/installer.rs:98-154 | Wherever an install is and whatever fails, every other published version stays as it is |
| `InstallerCommands.LockStaysExact` | tools/platform-release/installer.rs:851-869 | A lock without a holder comes about exactly when its holder is killed or cannot remove it |
| `InstallerRefusal.InstallKeepsVersions` | tools/platform-release/installer.rs:98-154 | Wherever an install ends or is killed, every version published before it is there unchanged |
| `InstallerRefusal.ForeignRefuses` | tools/platform-release/installer.rs:285-291 | An operation that finds another program's command never succeeds and leaves `current`, the authority file and that command as they were, wherever it ends or is killed |
| `InstallerRefusal.ForeignKeepsVersions` | tools/platform-release/installer.rs:326-336 | So refused, an uninstall leaves every published version unchanged |
| `InstallerRefusal.BarredRefuses` | tools/platform-release/installer.rs:454-460 | Under another's lock, with a journal of another command directory or with an improper version name no operation succeeds, and at most the prefix, an empty `versions` and the lock come or go |
| `InstallerTheorems.LostSyncBreaksCurrent` | tools/platform-release/installer.rs:309-310 | When only the sync after the rename of `current` fails, a version deleted afterwards leaves `current` broken |
| `InstallerTheorems.ExposureBreaksCurrent` | tools/platform-release/installer.rs:142-149 | When a dangling `current` names the version just published, one failing step before `current` is linked anew leaves it at a broken version |
| `InstallerExposure.TornExactly` | tools/platform-release/installer.rs:98-154 | From any disk the invariant allows, some safe run of installs leaves `current` at a broken version exactly when `current` exists and does not lead to a complete version before |
| `InstallerExposure.Recovers` | tools/platform-release/installer.rs:416-477 | From any journal for its command directory, however large the trees, a recovery that finds `versions` and is left alone gets through to the recovered disk |
| `InstallerExposure.Publishes` | tools/platform-release/installer.rs:107-126 | Past recovery an install of a sound distribution can reach the published version |
| `InstallerWitness.CurrentCanDangle` | tools/platform-release/installer.rs:219-233 | From any untouched disk, an installation and an uninstall killed before it unlinks `current` leave `current` dangling, and failing installs can then break it |
| `InstallerWitness.LostSyncIsReachable` | tools/platform-release/installer.rs:305-310 | From any untouched disk, a first install and a second one of another version reach a state in which the command works and two further steps, the first a lost sync, leave `current` at a broken version |
| `InstallerRollback.MovedTreeFate` | tools/platform-release/installer.rs:461-476 | In one step a removed tree keeps or loses files and remembers that its deletion has begun, or it is renamed back, or it goes when nothing is left; without intrusions before, it loses files only while deletion is allowed and is not renamed back once it has begun |
| `InstallerRollback.DeletionStaysFinal` | tools/platform-release/installer.rs:199-223 | What allows a deletion, a committed journal, an absent command or a present `versions`, keeps allowing it through every step exactly until an intrusion |
| `InstallerRollback.MovingRecordsWhole` | tools/platform-release/installer.rs:188-195 | The move aside keeps the versions as they were |
| `InstallerRollback.RollbackRestoresWhole` | tools/platform-release/installer.rs:462-468 | Over runs without an intrusion, with any other meddling and any crashes, a removed tree that goes was deleted to its last entry or comes back as it was moved, whole; once its deletion has begun it does not come back |
| `InstallerRevival.RevivalExactly` | tools/platform-release/installer.rs:461-468 | After a step, a tree whose deletion has begun can come back without further intrusion exactly when the step was one: a command put into the journaled directory while the tree is deleted, the journal is prepared and `versions` is absent |
| `InstallerRevival.FinalIsNotRevivable` | tools/platform-release/installer.rs:461-476 | While deletions are final, no run without an intrusion brings such a tree back |
| `InstallerRevival.IntrusionRevives` | tools/platform-release/installer.rs:461-468 | After an intrusion, some run without another brings such a tree back |
| `InstallerWitness.PartialTreeComesBack` | tools/platform-release/installer.rs:157-238 | From any untouched disk and for any distribution and file of it, a run with kills and one foreign command ends with the version published without that file |
| `InstallerRollback.StagedContentIsJournaled` | tools/platform-release/installer.rs:107-126 | In every reachable state a staging tree with content is the one the journal names |
| `InstallerRollback.RecoveryDeletesOnlyScratch` | tools/platform-release/installer.rs:425-453 | Recovery takes files only from staging and removed trees, never from a published version |
| `InstallerRollback.UninstallErases` | tools/platform-release/installer.rs:157-238 | An uninstall that reports success leaves no version, `current`, authority, journal or removed tree, and no command if none was put behind it |
| `InstallerRollback.CommandsStayGone` | tools/platform-release/installer.rs:199-217 | An uninstall past its unlinking has no command in its directory exactly until another program puts one there |
| `InstallerRollback.UninstallLeavesNothing` | tools/platform-release/installer.rs:157-238 | After any crashes and meddling, an uninstall that succeeds among uninstalls leaves no versions, removed tree, `current` or journal, and no command unless another program put one there after the unlinking |
| `InstallerRecovery.RecoveryStepConverges` | tools/platform-release/installer.rs:416-477 | No step of a recovery changes what a full recovery of the disk ends in |
| `InstallerRecovery.RecoveryConverges` | tools/platform-release/installer.rs:416-477 | However many recoveries by uninstalls, or by installs that find `versions`, are cut short, a full one then ends where one uninterrupted recovery ends |
| `InstallerHost.Host.RemoveTree` | tools/platform-release/installer.rs:608-620 | Removes a tree file by file; on failure a part of that tree is left and nothing else has changed |
| `InstallerHost.Host.RemoveMoved` | tools/platform-release/installer.rs:219-221 | Removes the trees moved aside |
| `InstallerHost.Host.ClearTransaction` | tools/platform-release/installer.rs:488-495 | Removes the journal if there is one |
| `InstallerHost.Host.Recover` | tools/platform-release/installer.rs:416-477 | Without faults ends in the recovered disk, and in every run only takes the machine's recovery steps |
| `InstallerHost.Host.CopyTree` | tools/platform-release/installer.rs:549-591 | Copies file after file; on failure the staging tree holds a part of the distribution and nothing else has changed |
| `InstallerHost.Host.InstallUnixCommand` | tools/platform-release/installer.rs:273-312 | Publishes the command, the authority file and `current`, in that order; another program's command is refused and nothing at all changes |
| `InstallerHost.Host.RemoveUnixCommand` | tools/platform-release/installer.rs:315-336 | Removes the command if it is the installation's own; another's is refused and nothing at all changes |
| `InstallerHost.Host.Uninstall` | tools/platform-release/installer.rs:157-238 | The whole uninstall as a run of the machine, and its effect when nothing fails |
| `InstallerHost.Host.Install` | tools/platform-release/installer.rs:78-154 | The whole install as a run of the machine, and its effect when nothing fails |
| `InstallerRuns.FollowIsRun` | tools/platform-release/installer.rs:78-238 | What the program does is a run of the machine with that process alone |
| `InstallerRuns.EveryInstantIsSafe` | tools/platform-release/installer.rs:78-238 | The disk invariant holds at every instant of an install or uninstall |
| `InstallerRuns.RecoveredIsSettled` | tools/platform-release/installer.rs:416-477 | A recovered disk has no journal, and no staging or removed tree that one named |
| `InstallerRuns.RunUninstall` | tools/platform-release/installer.rs:157-238 | From any reachable disk: a faultless uninstall succeeds exactly under conditions that can be checked before, and leaves nothing; refused or not, commands of others and of other directories stay, and a refused one leaves links and versions |
| `InstallerRuns.RunInstall` | tools/platform-release/installer.rs:78-154 | From any reachable disk: a faultless install succeeds exactly under conditions that can be checked before, and the command runs the complete version; refused or not, commands of others and of other directories and all published versions stay |
| `InstallerJournal.ReadableRoundTrip` | tools/platform-release/installer.rs:416-441 | A journal of clean paths within the size limit is read back as written |
| `InstallerJournal.OnlyReadableRoundTrips` | tools/platform-release/installer.rs:766-779 | No other journal is |
| `InstallerJournal.JournalRoundTrip` | tools/platform-release/installer.rs:766-779 | For every journal the code writes: its text, and that it is read back exactly when it is at most 4096 bytes long and its paths are clean |
| `InstallerAuthority.Directory.WriteAtomic` | tools/platform-release/installer.rs:497-518 | At every instant the file has its old or its new content, and on success the new one |
| `Utf16.RoundTrip` | fixtures/generate.py:416-420 | The UTF-16LE form of a name decodes to the name |
| `CfbDirectory.Collect` | fixtures/generate.py:351-362 | The paths are collected entry by entry into the ordered directory, or refused |
| `CfbDirectory.DirectoryHolds` | fixtures/generate.py:351-362 | The directory is refused exactly when a path is already known; else it holds the entries, all storages above them and the root, each once, in order |
| `CfbLinks.Link` | fixtures/generate.py:363-373 | The loops give every storage its first child and every entry its next sibling |
| `CfbLinks.SiblingsByName` | fixtures/generate.py:367-371 | Children found in directory order are in name order |
| `CfbWalk.RightIsNextName` | fixtures/generate.py:371-373 | A right link leads to the sibling with the next name, with none between; without one the name is the last |
| `CfbWalk.RootVisits` | fixtures/generate.py:363-373 | From the root the links reach exactly the entries that no stream lies above, each once |
| `CfbWalk.WalkForest` | fixtures/generate.py:363-373 | Following the stored left, child and right fields visits those entries with their paths |
| `CfbRecords.WriteRecord` | fixtures/generate.py:413-424 | The fields put over a zeroed block are the entry's layout; names over 64 bytes are refused |
| `CfbRecords.RecordRoundTrip` | fixtures/generate.py:413-424 | A written entry reads back as it was |
| `CfbWriter.WriteMinis` | fixtures/generate.py:375-386 | The small streams, their mini FAT chains and starts |
| `CfbWriter.WriteLarges` | fixtures/generate.py:393-404 | The large streams, their starts and their runs of sectors |
| `CfbWriter.WriteTable` | fixtures/generate.py:411-425 | The directory's bytes, or a refusal exactly when a name is too long |
| `CfbWriter.WriteFat` | fixtures/generate.py:430-439 | The FAT filled in place: all chains, the FAT sector, free entries |
| `CfbWriter.WriteHeader` | fixtures/generate.py:440-447 | The header's bytes |
| `CfbWriter.Write` | fixtures/generate.py:350-449 | The whole writer gives the specified file, or refuses exactly for clashing paths, long names and more than one FAT sector |
| `CfbFormat.FileFormat` | fixtures/generate.py:409-449 | Every field of a written file at its literal place with its literal value: the header (signature, versions 0x3E and 3, byte order, sector shifts, one FAT sector, cutoff, no DIFAT), all 128 bytes of each directory entry, the FAT with its own mark and its free entries, the mini FAT, every stream with zeros behind it |
| `CfbAllocation.SectorsAllocated` | fixtures/generate.py:388-408 | Each sector before the FAT sector belongs to exactly one of the directory, mini FAT, mini stream and large streams; the FAT marks itself and frees the rest; the length of the file |
| `CfbAllocation.RegionFollowed` | fixtures/generate.py:430-439 | Each of them is one chain of consecutive sectors that ends where its data ends |
| `CfbAllocation.MiniBlocks` | fixtures/generate.py:375-386 | After each small stream the mini stream has 64 bytes for each mini FAT entry |
| `CfbRoundTrip.RoundTrip` | fixtures/generate.py:350-449 | A reader gets back exactly the unshadowed storages and streams, each once, with path and bytes, on both sides of the cutoff |
| `CfbRoundTrip.RoundTripOfEntries` | fixtures/generate.py:350-449 | What is read are the entries' own paths and data, and nothing is lost exactly when no stream's path is a proper prefix of another path |
| `ZipEdits.PatchEncryptedFlag` | fixtures/generate.py:1132-1156 | The loop is the specified walk on all inputs, malformed ones included (what that walk does: `ZipMeaning.EncryptionMarks`) |
| `ZipEdits.CentralUnicodeExtra` | fixtures/generate.py:121-143 | The loop and the insertion are the specified edit on all inputs |
| `ZipEdits.InvalidUtf8Name` | fixtures/generate.py:146-170 | Both loops are the specified walks on all inputs |
| `ZipEncryption.EncryptRefines` | fixtures/generate.py:1132-1156 | On an archive's bytes: bit 0 of every local and central flag is set and nothing else changes; refused without local headers |
| `ZipMeaning.EncryptionMarks` | fixtures/generate.py:1132-1156 | On an archive's bytes: in every local and central header bit 0 of the flags is 1, all their other bits and all other fields are as before; refused without local headers |
| `ZipMeaning.EncryptionEnds` | fixtures/generate.py:1136-1155 | Behind the headers an end record or fewer than four bytes end the walk; any other record is refused |
| `ZipExtra.ExtraRefines` | fixtures/generate.py:121-143 | On an archive's bytes: only the first matching central header's extra field grows, lengths and end record stay right; refused exactly when there is none or a length overflows |
| `ZipMeaning.ExtraAdds` | fixtures/generate.py:121-143 | The first matching header gets a Unicode Path field, version 1 with the CRC-32 of the old name and the new name, and nothing else changes; or a length is too great or there is no such header |
| `ZipNames.SpoilRefines` | fixtures/generate.py:146-170 | On an archive's bytes: every matching local and central header gets the same invalid name and the UTF-8 flag, and nothing else changes |
| `ZipMeaning.NameInvalidates` | fixtures/generate.py:146-170 | In every local and central header of that name the first byte of the name is 0xFF and bit 11 of the flags is 1, all their other bits and all other fields and headers are as before |
| `ZipMeaning.LocalFormat` | fixtures/generate.py:1139-1143 | The bytes of a local header, field by field |
| `ZipMeaning.CentralFormat` | fixtures/generate.py:1146-1149 | The bytes of a central header, field by field |
| `ZipNames.EmptyNameDamages` | fixtures/generate.py:155-158 | With an empty target the byte behind the header is overwritten |
| `ZipNames.SpoilRefinesExactly` | fixtures/generate.py:146-170 | The edit is right on all archives exactly for non-empty targets |
| `XlsbRecords.XlsbVarint` | fixtures/generate.py:1243-1252 | The loop writes the base-128 form |
| `XlsbRecords.VarintRoundTrip` | fixtures/generate.py:1243-1252 | A written value delimits itself and reads back, whatever follows |
| `XlsbRecords.VarintShortest` | fixtures/generate.py:1243-1252 | No bytes that read as a value are fewer than those written for it |
| `XlsbRecords.RecordRoundTrip` | fixtures/generate.py:1255-1256 | A record reads back with type and payload, whatever follows |
| `XlsbRecords.StreamRoundTrip` | fixtures/generate.py:1255-1256 | Concatenated records read back as exactly the list written |
| `SpanPlacement.CandidateSheet.Record` | tools/legacy_office_perf/oracle.py:174-184 | A coordinate is recorded with its order and duplicate checks |
| `SpanPlacement.CandidateSheet.PlaceTable` | tools/legacy_office_perf/oracle.py:189-215 | The nested loops place a table as specified |
| `SpanPlacement.CandidateSheet.Fill` | tools/legacy_office_perf/oracle.py:186-224 | All blocks of a sheet, tables and paged lines |
| `SpanOrder.OneTableInOrder` | tools/legacy_office_perf/oracle.py:174-215 | The order flag of a one-table sheet stays set exactly when every cell but the last of its row takes a column, and then there are no duplicates |
| `SpanInversion.ShapeInverts` | tools/legacy_office_perf/oracle.py:213-215 | Placing a grid's shown cells finds its number of rows and columns |
| `SpanInversion.OrderInverts` | tools/legacy_office_perf/oracle.py:186-215 | Every shown cell returns to its own coordinate, in order, without duplicates, agreeing with its provenance |
| `SpanInversion.MergesInvert` | tools/legacy_office_perf/oracle.py:200-209 | The merged ranges found are the grid's, each once |
| `SpanInversion.ValuesInvert` | tools/legacy_office_perf/oracle.py:174-184 | The values found are the non-empty texts outside merged interiors, at their coordinates |
| `SpanInversion.WorkbookOracle` | tools/legacy-xls-oracle.py:245-277 | The loops list the non-empty cells outside merged interiors, and the merged ranges |
| `SpanInversion.SheetMatchesOracle` | tools/legacy-xls-oracle.py:245-277 | A cell is in the one list exactly when it is in the other's values |
| `SpanRecords.BlocksHold` | tools/legacy_office_perf/oracle.py:174-224 | After any tables and lines in any order: each coordinate has the last text recorded there, the order flag is set exactly when all coordinates increased, each coordinate is reported as often as it was recorded again |
| `SpanRecords.CellsTell` | tools/legacy_office_perf/oracle.py:197-209 | After any blocks the provenance flag is set exactly when every placed cell that names a coordinate was placed there, and the merged ranges are the given ones and then those of the cells with spans |
| `SpanRecords.LinesAlone` | tools/legacy_office_perf/oracle.py:216-224 | Without tables: the values are the non-empty fields, each in the row of its line over all blocks and the column of its place; as many rows as lines, as many columns as the longest line has fields; in order, without duplicates |
| `SpanRecords.LinesAfterTable` | tools/legacy_office_perf/oracle.py:186-224 | A table and then lines: a coordinate is reported, once, exactly when it is a placed cell and a field; the fields win; the order is broken as soon as there are both |
| `Acquire.Cache.DownloadOnce` | tools/platform-release/acquire.py:85-118 | One request: offset, range check, append or restart, size check, and how it ends |
| `Acquire.Cache.Fetch` | tools/platform-release/acquire.py:63-78 | Up to four attempts over the addresses in turn |
| `Acquire.Cache.Acquire` | tools/platform-release/acquire.py:42-78 | All items in order, up to the first failure |
| `AcquireTheorems.SizeNeverExceeded` | tools/platform-release/acquire.py:100-116 | Against any server the temporary file never exceeds the declared size, at every instant of a request |
| `AcquireTheorems.AttemptsBounded` | tools/platform-release/acquire.py:63-78 | Nor at any instant of all attempts over all mirrors, and no request asks for an offset beyond it |
| `AcquireTheorems.AttemptsHonest` | tools/platform-release/acquire.py:63-116 | With honest responses the temporary file is a prefix of the content at every instant of all attempts, every offset asked for lies within it, and a success of the content's size caches the content itself |
| `AcquireTheorems.AuthorityNeverDiffers` | tools/platform-release/acquire.py:63-78 | With honest responses a completed download of the declared content is never found to differ |
| `AcquireTheorems.ItemDoes` | tools/platform-release/acquire.py:44-78 | An item makes at most four requests, over its addresses in turn, and changes no other file; a success leaves a file of the declared hash and size, a failure the files as they were |
| `AcquireTheorems.AcceptedEnds` | tools/platform-release/acquire.py:100-118 | An accepted response ends the call when it is too much, is retried when it breaks off or is short, and otherwise is there in full |
| `AcquireTheorems.AttemptExactly` | tools/platform-release/acquire.py:63-78 | A finished request whose bytes differ from the declared hash or size ends the call with the cache as it was, one whose bytes agree caches them; a retried one is followed by another while fewer than four were made |
| `AcquireTheorems.RunsLeaveValidFiles` | tools/platform-release/acquire.py:42-78 | A normal return means every destination has the declared hash and size; undeclared files are as they were |
| `AcquireTheorems.ValidFilesAreKept` | tools/platform-release/acquire.py:52-54 | A second call makes no request and changes nothing |
| `Reconcile.AddBase` | tools/pdf-resilience/reconcile_reports.py:40-46 | The base's cases join the inventory, or are refused |
| `Reconcile.KeepRun` | tools/pdf-resilience/reconcile_reports.py:48-63 | One run's cases replace earlier ones, each replacement listed |
| `Reconcile.Reconcile` | tools/pdf-resilience/reconcile_reports.py:24-74 | The whole reconciliation as specified, error cases included |
| `ReconcileTheorems.Conserved` | tools/pdf-resilience/reconcile_reports.py:47-74 | Cases of all runs equal kept cases plus replacements; inventory keys are kept or missing, not both; passed plus failed equals kept; complete exactly when nothing is missing |
| `ReconcileTheorems.LastRunWins` | tools/pdf-resilience/reconcile_reports.py:47-63 | The verdict and executable of each case are those of the last run that has it |
| `ReconcileHistory.HistoryTold` | tools/pdf-resilience/reconcile_reports.py:47-63 | Of each case the last occurrence is kept, with its executable and the digest and number of its run; every occurrence but the first is listed as a replacement of the one before, with both verdicts and both executables |
| `ReconcileHistory.AcceptedExactly` | tools/pdf-resilience/reconcile_reports.py:9-61 | Accepted exactly when every run names its executables and has each case once, all cases are expected with their source, and all runs are complete or the manifest is the base's |
| `ReconcileHistory.SharedExecutable` | tools/pdf-resilience/reconcile_reports.py:64-74 | The report names an executable exactly when all cases and reports name that one |
| `Corpus.ListedExactly` | tools/pdf-resilience/reconcile_reports.py:33-37 | Expected are exactly the papers in the modes, the last paper of a name counting |
| `ReconcileStages.ReportIdentified` | tools/pdf-resilience/reconcile_reports.py:9-21 | When a reconciliation's own report names its executables |
| `ReconcileStages.FirstStageAccepts` | tools/pdf-resilience/reconcile_reports.py:24-74 | What one stage accepts, the first of two accepts |
| `ReconcileStages.StagesAccept` | tools/pdf-resilience/reconcile_reports.py:24-74 | A second stage accepts exactly what one stage would, if the first report names its executables |
| `ReconcileStages.StagesAgree` | tools/pdf-resilience/reconcile_reports.py:24-74 | Two stages and one give every case the same verdict and executable, the same missing cases and counts |
| `ReconcileStages.StagesCanDiffer` | tools/pdf-resilience/reconcile_reports.py:19-20 | Two runs without cases and with different executables leave a report a second stage refuses |
| `Partitions.CombinePartitions` | tools/pdf-resilience/reconcile_reports.py:77-115 | The loops combine partitions as specified |
| `Partitions.OrderDoesNotMatter` | tools/pdf-resilience/reconcile_reports.py:92-115 | Any order of the partitions is accepted alike and gives the same cases, missing cases and counts |
| `Partitions.CombineConserves` | tools/pdf-resilience/reconcile_reports.py:92-115 | Every case of every partition is kept, and passed or failed; every expected case is combined or missing, not both |
| `PartitionHistory.CombinedExactly` | tools/pdf-resilience/reconcile_reports.py:77-102 | Combined exactly when the partitions agree on all options, no paper and no mode is listed twice, and every case is of a paper, with its source and page count, in one of the modes, no two of the same |
| `PartitionHistory.CombinedTells` | tools/pdf-resilience/reconcile_reports.py:92-115 | The result lists all cases in order, each with executable, digest and number of its partition, counts those that passed, and is complete exactly when nothing is missing and every partition is complete |
| `TextOrder.SortSorts` | tools/release_evidence.py:55 | Sorting orders the names and keeps each as often |
| `TextOrder.StringLessExactly` | tools/release_evidence.py:55 | One name stands before another exactly when it is a proper beginning of it or has the smaller character where they first differ |
| `Evidence.ReadSource` | tools/release_evidence.py:48-78 | The loop takes in the source as specified, limits and refusals included |
| `Evidence.WriteBundle` | tools/release_evidence.py:87-119 | The loop stores and describes every content as specified; refused exactly when the output exists or the revision is not hexadecimal |
| `EvidenceTheorems.SourceFiled` | tools/release_evidence.py:48-78 | Every file, and nothing else, is filed under its digest with its own bytes |
| `EvidenceFormat.SourceAcceptedExactly` | tools/release_evidence.py:48-78 | A source is taken in exactly when it has one to 4096 files of at most 2 GiB together at acceptable paths, nothing else but folders, and no two different files of one digest |
| `EvidenceTheorems.EnumerationDoesNotMatter` | tools/release_evidence.py:55 | The result does not depend on the order of enumeration |
| `EvidenceTheorems.Lossless` | tools/release_evidence.py:81-119 | Manifest and stored contents rebuild exactly the source's paths and bytes, whatever the digest function |
| `EvidenceTheorems.StoredOnce` | tools/release_evidence.py:81-119 | Each path is listed once; entries differ in stored name, content and paths |
| `EvidenceFormat.ManifestTold` | tools/release_evidence.py:81-119 | Every entry gives the digest and size of the bytes stored for it, its paths in order and the stored name, ending in the last component of the paths where they agree on it and in `content.bin` otherwise; entries are in digest order; nothing is stored without an entry |
| `Worklist.Reach` | tools/macos-release/rust_package.py:42-49 | The worklist ends with exactly the packages reachable from the root, and fails exactly when one of them is not resolved |
| `Worklist.LocalPackages` | tools/macos-release/rust_package.py:36-50 | The local packages are those the one facade reaches |

## Left out

- Installer, Windows: launcher, prefix file and `MoveFileExW` replacement have other, non-atomic steps.
- Installer, permissions and path safety: ownership, immutability, link and special-file checks are not steps of the model; paths are already normalized, directories passed in exist and are safe.
- Installer, links: a temporary link and its rename are one step, as is an atomic file write, which `InstallerAuthority` justifies.
- Installer, trees: directories inside a tree are flattened into file names, and modes and contents of files are not represented; `archive-check` is the completeness of a tree.
- Installer, space of runs: one prefix, any number of command directories; a fault reports failure with its change made or not made, never a change of another file.
- InstallerRollback.UninstallLeavesNothing: among installs an empty `versions` may be made again by a process that has not yet reached the lock, so the statement is about histories of uninstalls.
- InstallerTheorems.InstallsKeepCommandWorking: excludes the failing directory sync after `current` is published, which is shown to break the property, and other programs that take away an owned command.
- InstallerRecovery.RecoveryConverges: other programs leave the command alone meanwhile, and an install that creates a missing `versions` first is not a mere recovery: it turns a rollback into a deletion.
- InstallerRevival.RevivalExactly: the prefix directory exists; nothing in the model removes it.
- SpanInversion.WorkbookOracle: formulas and cell formatting of the loop are not represented.
- CfbReader: reads files with one FAT sector and no DIFAT chain, which is what the writer makes.
- Utf16.RoundTrip: names are sequences of Unicode scalar values; a lone surrogate, which the original refuses with an encoding error, cannot be written here.
- Cfb writer, exceptions: refusals carry no message.
- ZIP library and compression: the abstract printer stands for stored archives without data descriptors and comment.
- ZipExtra.ExtraRefines: the CRC-32 of the name is a parameter.
- SpanPlacement: cell texts, provenance and the decoding of escaped fields come as inputs; formulas of the workbook oracle are not represented, so a required formula with an empty value is not listed.
- Acquire: TLS, redirects and the response headers appear as fields of a response; two identities whose temporary files would have one name are not represented.
- Reconcile: fields copied unchanged from a report, such as configurations and time limits, are not represented.
- Evidence: path normalization and the rejection of signing material are a parameter that accepts or refuses a path; JSON and ZIP printing of the bundle is left out.
- Worklist: copying the packages' files is left out.
- Converters, rendering, benchmarks, signing, release assembly and document fixtures: outside of this model.
