# detfc — a verified model of the file-change detector

detfc is a command-line tool. It looks at a set of target files and directories, decides
whether they changed since its previous run, and if so runs a shell command. The state
of the previous run is kept in a snapshot file, named with `-db`. There are three
checking methods, chosen with `-m`:

- **method 0, "fast"**: the targets changed when some in-scope entry was written after
  the snapshot file was. The snapshot file itself is empty; only its last-write time is
  used. The scan stops at the first newer entry.
- **method 1, "dirsummary"**: for every directory the scan descends into, it keeps the
  number, total size and latest last-write time of the in-scope children. The
  command-line targets form one extra, top-level summary. Any summary that differs, a
  new directory, or a directory that was not met again is a change.
- **method 2, "filestat"** (the default): every in-scope entry is looked up by its full
  path in the snapshot. A new path, a type, size or time that differs, or a stored path
  that was not met again is a change.

An entry is in scope when it is a directory and `-d` is given, or a regular file whose
name ends in one of the `-ext` extensions (compared without regard to letter case); an
empty list lets every regular file through. The scan goes into directories only under
`-r`.

The model has these parts:

- **`Basics`**: fixed-width integers.
- **`BinaryIO`**: the byte codec of the snapshot files (`writeBinary`, `readBinary`,
  `writeStringBinary`, `readStringBinary`), with streams modelled as byte sequences
  that carry a read position and a fail bit.
- **`PathStrings`**: the path-string library.
- **`Entries`**: directory entries, the Win32 conversions, and the tree of entries a
  scan walks.
- **`CommandLines`**: the command line and its parser, modelled as a class updated in
  place.
- **`Checking`**: the scope test and the order in which a scan meets entries.
- **`Drains`**: the lookup-compare-erase comparison that methods 1 and 2 share.
- **`RecordLists`**: the counted record lists of both snapshot formats.
- **`FastCheck`**, **`DirSummaryCheck`**, **`FileStatCheck`**: one class per checking
  method, with the fields the source updates in place. Each one's recursive scan is
  written as methods proved against a specification function of the file system.
- **`Detfc`**: `main`, which parses the command line, picks the method, loads the
  snapshot, checks, writes the new snapshot, and returns the command to launch.

## Model

| member | source | states |
|---|---|---|
| Basics.SizeT | src/binaryio.h:27 | a length below 2^64 is stored unchanged as a `size_t` |
| BinaryIO.LE | src/binaryio.h:11-15 | `writeBinary` emits exactly `width` bytes for a value |
| BinaryIO.FromLE | src/binaryio.h:17-23 | the value read from `n` bytes is below 256^n |
| BinaryIO.FromLEOfLE | src/binaryio.h:11-23 | reading back the bytes of a value gives the value |
| BinaryIO.LEOfFromLE | src/binaryio.h:11-23 | writing the value of some bytes gives back the same bytes |
| BinaryIO.FromLEAppend | src/binaryio.h:17-23 | a value's bytes split into a low part and a high part |
| BinaryIO.FromLEZeroExtended | src/binaryio.h:20-21 | the zero bytes of `T v = T()` that a short read leaves add nothing to the value |
| BinaryIO.CharsOfBytes | src/binaryio.h:28 | writing a string's characters as bytes and reading them back gives the string |
| BinaryIO.EncodeString | src/binaryio.h:25-29 | a string is written as an 8-byte length, then its characters with no terminator |
| BinaryIO.DecodeLE | src/binaryio.h:17-23 | a fixed-width read succeeds exactly when `width` bytes remain, and moves past them |
| BinaryIO.DecodeString | src/binaryio.h:31-52 | a successful string read consumes the length field and as many bytes as the string has |
| BinaryIO.DecodeLEAt | src/binaryio.h:11-23 | a value read where it was written is read back, and the read ends after it |
| BinaryIO.DecodeStringAt | src/binaryio.h:25-52 | a string read where it was written is read back, for every length below 2^64 |
| BinaryIO.OutStream.Write | src/binaryio.h:14 | `ostream::write` appends the bytes given |
| BinaryIO.InStream.Read | src/binaryio.h:21 | `istream::read` copies the bytes that remain, up to `n`; reading fewer than `n` sets the fail bit; a failed stream reads nothing; the rest of the buffer is untouched |
| BinaryIO.WriteBinary | src/binaryio.h:11-15 | appends exactly the `width` bytes of the value |
| BinaryIO.ReadBinary | src/binaryio.h:17-23 | a failed stream gives 0; a full read gives the value decoded at the old position; a short read sets the fail bit and gives the bytes there were |
| BinaryIO.WriteStringBinary | src/binaryio.h:25-29 | appends the string's encoding |
| BinaryIO.ReadStringBinary | src/binaryio.h:31-52 | gives "" when the length cannot be read; otherwise gives exactly the decoded string, or sets the fail bit when the characters are cut short; the allocation of the larger buffer is taken to succeed |
| BinaryIO.BinaryRoundTrip | src/binaryio.h:11-23 | `readBinary` of what `writeBinary` wrote gives the value and consumes exactly its width |
| BinaryIO.StringRoundTrip | src/binaryio.h:25-52 | `readStringBinary` of what `writeStringBinary` wrote gives the string back |
| PathStrings.LastSeparator | src/filesystem.cpp:86-109 | the index found holds a separator and no separator follows it; None means the path has no separator |
| PathStrings.FindLastSeparator | src/filesystem.cpp:86-109 | the forward scan that remembers the last hit finds the last separator |
| PathStrings.GetPathFileNamePos | src/filesystem.cpp:152-213 | the file name starts after the last separator, is empty after a trailing separator, is the whole of a `\\Server` name, and starts at index 2 of `C:a` |
| PathStrings.GetPathFileNamePart | src/filesystem.cpp:219-222 | the file name is the tail of the path from the file-name position |
| PathStrings.GetPathNotFileNamePart | src/filesystem.cpp:229-232 | the rest of the path is its head up to the file-name position |
| PathStrings.SplitPathRoundTrip | src/filesystem.cpp:219-232 | the head and the file name together give the path back |
| PathStrings.IsPathTerminatedByRedundantSeparator | src/filesystem.cpp:237-270 | the single scan answers "the path ends in a separator that follows a character other than `:`, `?` or NUL" |
| PathStrings.GetPathWithoutLastRedundantSeparator | src/filesystem.cpp:278-286 | drops the last character exactly when it is a redundant separator, and is a prefix of the path otherwise |
| PathStrings.GetPathDirectoryPart | src/filesystem.cpp:288-291 | the directory part is a prefix of the path that ends no later than the file name starts |
| PathStrings.ConcatPath | src/filesystem.cpp:293-307 | an empty side gives the other side; otherwise it puts a `\` between the two parts exactly when the first part does not end in a redundant separator |
| PathStrings.JoinSplitPath | src/filesystem.cpp:288-307 | splitting an ordinary `dir\name` path and joining the parts gives the path back |
| PathStrings.ConcatAfterDriveRootDoublesSeparator | src/filesystem.cpp:293-307 | joining `C:\` with `x` gives `C:\\x`, with a doubled separator |
| PathStrings.FileNamePosSpecialExamples | src/filesystem.cpp:152-213 | the file name of `\\Server` starts at 0, and that of `C:a` at 2 |
| PathStrings.FileNamePosExamples | src/filesystem.cpp:152-213 | the file-name positions of `\\Server\a`, `C:`, `C:\a\`, `a/b` and `""` |
| PathStrings.RedundantSeparatorExamples | src/filesystem.cpp:237-270 | `C:\a\`, `.\` and `C:a\` end in a redundant separator; `C:\`, `\\?\` and `\` do not |
| Entries.DirectoryEntry.GetPath | src/filesystem.h:49 | the full path starts with the directory and ends with the name, and is the other part when one part is empty |
| Entries.DirectoryEntry.Assign | src/filesystem.h:57-63 | replaces the name and the metadata and keeps the directory |
| Entries.EntryWithoutMetadata | src/filesystem.h:42-48 | the default metadata is an error type with size 0 and time 0, so the entry is neither a directory nor a regular file |
| Entries.EntryKindsExclusive | src/filesystem.h:54-55 | no entry is both a directory and a regular file |
| Entries.Win32FileType | src/filesystem.cpp:14-23 | `INVALID_FILE_ATTRIBUTES` gives the error type, the directory bit gives a directory, and anything else gives a regular file |
| Entries.Win32ULargeInteger | src/filesystem.cpp:24-30 | the quad value is high * 2^32 + low |
| Entries.Win32FileSize | src/filesystem.cpp:31-34 | the size is high * 2^32 + low |
| Entries.Win32FileTime | src/filesystem.cpp:35-38 | the time is high * 2^32 + low |
| Entries.GetPathDirectoryEntry | src/filesystem.cpp:332-347 | the entry carries the path's directory part and name; a failed attribute query gives no metadata; otherwise it gives the converted type, size and time |
| Entries.ChildPath | src/filesystem.cpp:380-425 | in a tree built by the enumerator, a child's full path is its parent's path joined with its name, and starts with the parent's path |
| FileStatCheck.TargetLookedUpUnderItsPath | src/main.cpp:459-462 | in a well-formed file system, an ordinary target `dir\name` gets directory `dir` and name `name` from `getPathDirectoryEntry`, and is looked up under that same path |
| Checking.EntryTargetCases | src/main.cpp:142-149 | an entry without metadata is never in scope; a directory is in scope exactly under `-d`; a regular file is in scope exactly when its name passes the extension list |
| Checking.WalkAllConcat | src/main.cpp:199-239 | scanning two groups of targets meets the entries of one group, then those of the other |
| Checking.WalkWithoutRecursion | src/main.cpp:215-228 | without `-r`, a scan meets the targets' own entries and nothing else |
| Checking.InScopeMembers | src/main.cpp:142-149 | the filter keeps exactly the in-scope entries |
| CommandLines.ToUpper | src/main.cpp:56 | `toupper` maps `a`..`z` to upper case and leaves every other character alone |
| CommandLines.EmptyExtensionMatchesAll | src/main.cpp:47-66 | an empty extension in the list lets every name through |
| CommandLines.MatchIgnoresCase | src/main.cpp:56 | upper-casing a name does not change whether it passes |
| CommandLines.ExtensionMatchExamples | src/main.cpp:47-66 | `report.txt` passes `.TXT`, `main.H` passes `.cpp .h`, and anything passes the empty list |
| CommandLines.ExtensionMismatchExamples | src/main.cpp:47-66 | `txt` fails `.txt` because the extension is longer than the name, and `main.cc` fails `.cpp` |
| CommandLines.ScanOnlyAdds | src/main.cpp:73-118 | wherever the argument loop stops, `targets_` and `targetExtensions_` have only been pushed to, each target a non-dash argument and each extension an argument given, and neither `-r` nor `-d` has been switched off |
| CommandLines.ParseFrom | src/main.cpp:68-126 | a successful `parse` has named a snapshot file and keeps the targets and extensions it started with, adding only arguments it was given, the targets among them non-dash arguments |
| CommandLines.CommandLine.constructor | src/main.cpp:34-38 | starts with no targets, both switches off, and every string empty |
| CommandLines.CommandLine.MatchTargetExtension | src/main.cpp:47-66 | the countdown loop answers "the list is empty, or some extension ends the name, ignoring case" |
| CommandLines.CommandLine.Parse | src/main.cpp:68-126 | the fields become what the argument scan had set when it stopped, and the result is the success of `parse` |
| CommandLines.ScanAppend | src/main.cpp:71-118 | a scan that understood a prefix of the arguments continues from the settings it reached |
| CommandLines.TrailingOptionFails | src/main.cpp:84-107 | a value-taking option given last makes `parse` fail |
| CommandLines.UnknownOptionFails | src/main.cpp:111-114 | an unknown dash argument makes `parse` fail, whatever follows it |
| CommandLines.PositionalIsTarget | src/main.cpp:117-119 | a non-dash argument is appended to the targets |
| CommandLines.DbFileComesFromOption | src/main.cpp:83-88 | the snapshot file a scan ends with was the value of a `-db` argument |
| CommandLines.DbFileRequired | src/main.cpp:121-125 | every successful parse had a `-db` option with that value |
| CommandLines.ParseRenderRoundTrip | src/main.cpp:68-126 | parsing the arguments rendered from any expressible settings gives those settings back |
| CommandLines.ParseExamples | src/main.cpp:68-126 | concrete successes: targets around a switch and `-db`, and an empty argument taken as a target |
| CommandLines.ParseFailureExamples | src/main.cpp:68-126 | concrete failures: a missing `-db`, `-db` without a value, and an unknown option |
| Drains.DrainConcat | src/main.cpp:479-500 | comparing a + b is comparing a, then b |
| Drains.DrainOne | src/main.cpp:479-500 | one item: a miss is a change; a hit compares the values and erases the entry |
| Drains.DrainPrev | src/main.cpp:355-365 | after the comparison the snapshot holds exactly the paths that were not met |
| Drains.DrainChanged | src/main.cpp:355-365 | the change flag ends up set exactly when it already was, or some item was new, met a second time, or compared different |
| Drains.Insert | src/main.cpp:390 | `std::map::insert` keeps the value of a path already present |
| Drains.InsertAll | src/main.cpp:384-391 | the loaded map's keys are the paths read |
| Drains.InsertAllDistinct | src/main.cpp:529-532 | when the paths differ, each one is stored with its own value |
| Drains.InsertKeepsFirst | src/main.cpp:529-532 | a path stored twice keeps its first value |
| Drains.DrainOwnSnapshot | src/main.cpp:479-500 | comparing a scan with a snapshot of the same distinct paths and matching values empties the snapshot and flags nothing |
| Drains.DrainEmptySnapshot | src/main.cpp:484-487 | against an empty snapshot, any scanned item is a change |
| Drains.DrainRepeatedPath | src/main.cpp:483-498 | a path scanned twice is always a change, because the second lookup misses |
| RecordLists.EncodeListSnoc | src/main.cpp:547-552 | writing one record more appends its image |
| RecordLists.ListStep | src/main.cpp:520-533 | reading one record more extends the list read |
| RecordLists.ListFails | src/main.cpp:525-527 | once a record cannot be read, no longer list can be read |
| RecordLists.DecodeListAt | src/main.cpp:520-552 | a written list of records that each read back is read back whole, and the read ends where the list does |
| FastCheck.HasNewerExists | src/main.cpp:199-244 | a newer entry was met exactly when some entry in scope is later than the snapshot |
| FastCheck.ScannedPrefixStopsAtFirstNewer | src/main.cpp:199-239 | the scan examines entries up to and including the first newer one, or all of them when there is none |
| FastCheck.ScannedPrefixAppend | src/main.cpp:230-239 | a scan of a + b stops inside a when a holds a newer entry, and otherwise goes on into b |
| FastCheck.CheckingMethod0.constructor | src/main.cpp:194-197 | starts with reference time 0 and no change |
| FastCheck.CheckingMethod0.ReadDB | src/main.cpp:247-250 | the reference time is the snapshot file's last-write time |
| FastCheck.CheckingMethod0.WriteDB | src/main.cpp:252-255 | opening the snapshot file leaves it empty; a file that cannot be opened is left alone |
| FastCheck.CheckingMethod0.Check | src/main.cpp:199-208 | the result is "some in-scope entry is newer than the snapshot"; the entries examined are exactly the scan up to the first such entry |
| FastCheck.CheckingMethod0.CheckTargets | src/main.cpp:201-206 | the targets are scanned in order, up to the first hit |
| FastCheck.CheckingMethod0.CheckPath | src/main.cpp:211-214 | the scan of one command-line path |
| FastCheck.CheckingMethod0.CheckEntry | src/main.cpp:215-229 | the entry itself is checked first, then its enumeration under `-r` |
| FastCheck.CheckingMethod0.CheckDirectorySubEntries | src/main.cpp:230-240 | the enumeration is scanned in order, up to the first hit |
| FastCheck.CheckingMethod0.CheckTargetEntry | src/main.cpp:241-244 | an entry is newer exactly when its time is strictly later than the reference time |
| FastCheck.MissingSnapshotDetectsAnyWrite | src/main.cpp:247-250 | with no snapshot file the reference time is 0, so any in-scope entry with a non-zero time is a change |
| FastCheck.ChangedAntitone | src/main.cpp:241-244 | a later reference time never turns "no change" into a change |
| FastCheck.NothingNewerIsUnchanged | src/main.cpp:199-244 | when no in-scope entry is later than the snapshot, the verdict is "no change" |
| DirSummaryCheck.Add | src/main.cpp:285-292 | the count grows by one modulo 2^32, the size grows by the entry's size modulo 2^64, and the time becomes the later of the two |
| DirSummaryCheck.AddInScopeCount | src/main.cpp:345-352 | a directory's count is the number of its in-scope children, modulo 2^32 |
| DirSummaryCheck.AddInScopeSize | src/main.cpp:345-352 | a directory's size is the sum of its in-scope children's sizes, modulo 2^64 |
| DirSummaryCheck.AddInScopeLatest | src/main.cpp:345-352 | a directory's time is the latest of its in-scope children's times |
| DirSummaryCheck.NothingInScopeKeepsSummary | src/main.cpp:349-351 | with no child in scope, the summary stays as it was |
| DirSummaryCheck.SummaryDependsOnlyOnStats | src/main.cpp:275-302 | two enumerations that agree on scope, sizes and times have the same summary |
| DirSummaryCheck.RenameUndetected | src/main.cpp:275-302 | renaming an in-scope file within the extension list leaves its directory's summary unchanged |
| DirSummaryCheck.DescendStep | src/main.cpp:340-366 | one scanned node more extends both the pushed directories and the drained snapshot |
| DirSummaryCheck.SummaryStep | src/main.cpp:327-331 | one target more adds its entry to the top-level summary when it is in scope |
| DirSummaryCheck.Magic1Bytes | src/main.cpp:368 | the magic number is the bytes `d f c 1` |
| DirSummaryCheck.EncodeSummary | src/main.cpp:423-428 | a summary takes 4 + 8 + 8 bytes |
| DirSummaryCheck.EncodeRecord | src/main.cpp:419-420 | a directory record is its path string followed by its summary |
| DirSummaryCheck.DecodeSummary | src/main.cpp:396-407 | a summary is read exactly when 20 bytes remain |
| DirSummaryCheck.HeaderRead | src/main.cpp:375-382 | the header decodes exactly when its three reads all succeed |
| DirSummaryCheck.DecodeDB1Parts | src/main.cpp:383-394 | a list that cannot be read leaves nothing loaded; otherwise the records are `insert`ed in order |
| DirSummaryCheck.DecodeSummaryAt | src/main.cpp:396-428 | a written summary reads back |
| DirSummaryCheck.DecodeRecordAt | src/main.cpp:385-386 | a written directory record reads back |
| DirSummaryCheck.RecordsReadBack | src/main.cpp:385-420 | every directory record written anywhere in the file reads back |
| DirSummaryCheck.DB1HeaderRoundTrip | src/main.cpp:375-417 | a written header reads back as the top-level summary and the count |
| DirSummaryCheck.DB1RoundTrip | src/main.cpp:369-422 | reading what `writeDB` wrote gives the top-level summary and the directories `insert`ed in order |
| DirSummaryCheck.ReadDirSummary | src/main.cpp:396-407 | a failed or short read gives the empty summary and sets the fail bit; otherwise it gives the summary decoded |
| DirSummaryCheck.WriteDirSummary | src/main.cpp:423-428 | appends the summary's encoding |
| DirSummaryCheck.ReadDirectoryRecord | src/main.cpp:385-389 | the stream stays good exactly when a record decodes, and then the record is the one decoded |
| DirSummaryCheck.ReadDirectoryList | src/main.cpp:383-391 | succeeds exactly when `count` records decode, and then gives them `insert`ed in order |
| DirSummaryCheck.CheckingMethod1.constructor | src/main.cpp:309-311 | starts with no directories, empty summaries and no change |
| DirSummaryCheck.CheckingMethod1.Check | src/main.cpp:313-325 | the top-level summary and the directory list are the scan's; the verdict is the top-level comparison, the drain, and "something of the snapshot is left" |
| DirSummaryCheck.CheckingMethod1.CheckTargets | src/main.cpp:315-317 | each target is scanned in command-line order |
| DirSummaryCheck.CheckingMethod1.CheckTopLevelEntry | src/main.cpp:327-333 | a target in scope is added to the top-level summary, then the target is scanned |
| DirSummaryCheck.CheckingMethod1.CheckEntry | src/main.cpp:334-339 | the scan descends only into directories, and only under `-r` |
| DirSummaryCheck.CheckingMethod1.CheckDirectorySubEntries | src/main.cpp:340-366 | the subdirectories' records come first, then the directory's own summary is pushed and compared with the snapshot's, which is erased |
| DirSummaryCheck.CheckingMethod1.ReadDB | src/main.cpp:369-395 | the snapshot is replaced only when the whole file was read |
| DirSummaryCheck.CheckingMethod1.WriteDB | src/main.cpp:408-422 | writes the magic, the top-level summary, the count and the directory records; writes nothing when the file cannot be opened |
| DirSummaryCheck.ChangedCases | src/main.cpp:313-366 | the verdict spelt out: the top-level summary differs, or a directory is new, met twice or summarised differently, or a stored directory was not met |
| DirSummaryCheck.FirstRun | src/main.cpp:313-325 | with no snapshot, the verdict is a change exactly when the top-level summary is not empty or some directory was descended into |
| DirSummaryCheck.FirstRunWithNothingInScope | src/main.cpp:313-325 | a first run with nothing in scope at the top level and no descent reports no change |
| DirSummaryCheck.NoDescent | src/main.cpp:334-339 | without descent, no directory is recorded |
| DirSummaryCheck.SecondRunUnchanged | src/main.cpp:313-422 | a rerun on unchanged targets that reads the snapshot just written reports no change, when no directory is met twice |
| DirSummaryCheck.RepeatedDirectoryAlwaysChanged | src/main.cpp:354-365 | a directory met twice makes every run report a change |
| FileStatCheck.KeyedKeys | src/main.cpp:483 | the paths looked up are exactly the full paths of the entries scanned |
| FileStatCheck.KeyedAppend | src/main.cpp:483 | keying distributes over concatenation |
| FileStatCheck.InScopeWalk | src/main.cpp:463-471 | the in-scope entries met from a node are its own entry when in scope, then those below it when the scan descends |
| FileStatCheck.EntryStep | src/main.cpp:463-471 | scanning a node pushes and compares its in-scope entries in walk order |
| FileStatCheck.TargetStep | src/main.cpp:448-450 | one scanned target more extends both the pushed entries and the drained snapshot |
| FileStatCheck.Magic2Bytes | src/main.cpp:503 | the magic number is the bytes `d f c 2` |
| FileStatCheck.RebuiltEntryExact | src/main.cpp:529-532 | an ordinary entry's record holds `dir\name`, and the entry rebuilt from it is the entry itself, directory and name included |
| FileStatCheck.RebuiltEntrySame | src/main.cpp:489-491 | an entry written and rebuilt compares equal to itself |
| FileStatCheck.SnapshotItemsAreKeyed | src/main.cpp:529-532 | when every entry is ordinary, the pairs `readDB` inserts for the records written are exactly the pairs `checkTargetEntry` looks up |
| FileStatCheck.EncodeStat | src/main.cpp:549-551 | type, size and time take 4 + 8 + 8 bytes |
| FileStatCheck.EncodeTarget | src/main.cpp:548-551 | a target is its path string followed by its type, size and time |
| FileStatCheck.DecodeStat | src/main.cpp:522-524 | the statistics are read exactly when 20 bytes remain |
| FileStatCheck.HeaderRead2 | src/main.cpp:510-516 | the header decodes exactly when both reads succeed |
| FileStatCheck.DecodeDB2Parts | src/main.cpp:518-535 | a list that cannot be read leaves nothing loaded; otherwise the targets are `insert`ed in order |
| FileStatCheck.DecodeStatAt | src/main.cpp:522-524 | written statistics read back |
| FileStatCheck.DecodeTargetAt | src/main.cpp:521-524 | a written target record reads back |
| FileStatCheck.TargetsReadBack | src/main.cpp:521-551 | every target record written anywhere in the file reads back |
| FileStatCheck.DB2HeaderRoundTrip | src/main.cpp:510-546 | a written header reads back as the count |
| FileStatCheck.DB2RoundTrip | src/main.cpp:504-553 | reading what `writeDB` wrote gives each target `insert`ed under its path |
| FileStatCheck.ReadTargetRecord | src/main.cpp:521-527 | the stream stays good exactly when a record decodes, and then the record is the one decoded |
| FileStatCheck.ReadTargetList | src/main.cpp:518-533 | succeeds exactly when `count` records decode, and then gives them `insert`ed in order |
| FileStatCheck.WriteTargetStep | src/main.cpp:547-552 | after the header and the first `i` records, writing the path, type, size and time of record `i` appends exactly that record's encoding |
| FileStatCheck.CheckingMethod2.constructor | src/main.cpp:442-444 | starts with no targets, an empty snapshot and no change |
| FileStatCheck.CheckingMethod2.Check | src/main.cpp:446-456 | the pushed entries are the scan's in-scope entries; the verdict is the drain plus "something of the snapshot is left" |
| FileStatCheck.CheckingMethod2.CheckTargets | src/main.cpp:448-450 | each target is scanned in command-line order |
| FileStatCheck.CheckingMethod2.CheckPath | src/main.cpp:459-462 | the scan of one command-line path |
| FileStatCheck.CheckingMethod2.CheckEntry | src/main.cpp:463-471 | the entry is compared when in scope, then its enumeration is scanned under `-r` |
| FileStatCheck.CheckingMethod2.CheckDirectorySubEntries | src/main.cpp:472-478 | the enumeration is scanned in order |
| FileStatCheck.CheckingMethod2.CheckTargetEntry | src/main.cpp:479-500 | the entry is pushed; a miss is a change; a hit compares type, time and size and is erased |
| FileStatCheck.CheckingMethod2.ReadDB | src/main.cpp:504-536 | the snapshot is replaced only when the whole file was read |
| FileStatCheck.CheckingMethod2.WriteDB | src/main.cpp:538-553 | writes the magic, the count and one record per pushed entry; writes nothing when the file cannot be opened |
| FileStatCheck.ChangedCases | src/main.cpp:446-500 | the verdict spelt out: some entry is new, met twice or different, or a stored path was not met |
| FileStatCheck.FirstRun | src/main.cpp:446-500 | with no snapshot, the verdict is a change exactly when some entry is in scope |
| FileStatCheck.DrainOwnTargets | src/main.cpp:479-500 | comparing a scan with its own rebuilt snapshot, with distinct paths, empties it and flags nothing |
| FileStatCheck.SecondRunUnchanged | src/main.cpp:446-553 | a rerun on unchanged targets that reads the snapshot just written reports no change, when no path is met twice |
| FileStatCheck.RepeatedPathAlwaysChanged | src/main.cpp:481-498 | a path met twice makes every run report a change |
| FileStatCheck.DeletedPathChanged | src/main.cpp:452-454 | a stored path that is not met is a change |
| Detfc.MethodByName | src/main.cpp:555-557 | `2`, `filestat` and the empty name give method 2 (as `0`/`fast` give method 0 at lines 262-263 and `1`/`dirsummary` method 1 at lines 430-431); nothing else names a method |
| Detfc.Run | src/main.cpp:563-590 | a failed parse or an unknown method gives exit code -1 with nothing written or launched; otherwise exit code 0, the snapshot is written exactly on a change the file can take, and the command is launched exactly on a change when one is set |
| Detfc.RunMethod0 | src/main.cpp:577-582 | the verdict of method 0, and truncation of the snapshot only on a change |
| Detfc.RunMethod1 | src/main.cpp:577-582 | the verdict of method 1 against the loaded snapshot, and the new snapshot written only on a change |
| Detfc.RunMethod2 | src/main.cpp:577-582 | the verdict of method 2 against the loaded snapshot, and the new snapshot written only on a change |
| Detfc.RerunUnchanged | src/main.cpp:577-582 | for methods 1 and 2, a run that reads the snapshot the previous run wrote on the same targets reports no change, when no path repeats |
| Detfc.FastRerun | src/main.cpp:577-582 | for method 0, a rerun reports no change when nothing in scope is later than the truncated snapshot |
| Detfc.FirstRunMethod2 | src/main.cpp:577-582 | with no snapshot file, the default method reports a change exactly when some entry is in scope |

## Left out

- Win32 calls (`GetFileAttributesEx`, `FindFirstFile`/`FindNextFile`) are not modelled as calls. What they report is an input: a `Filesystem` maps each path to a node holding its entry and its enumeration. `Entries.WellFormed` states how the platform builds those nodes: each root entry is `getPathDirectoryEntry` of its path, and each child's directory is its parent's full path. The scan and verdict lemmas hold for every tree, well-formed or not, so they do not require it. Only `FileStatCheck.TargetLookedUpUnderItsPath` uses it.
- `DirectoryEntryEnumerator` (src/filesystem.cpp:374-443) is not modelled as an object: it is the node's sequence of children, with `.` and `..` already skipped. `DirectoryEntry.assign` is modelled as a function returning the updated value.
- The double-byte (DBCS) branches of the path scanners are not modelled: paths are single-byte strings.
- `next_char_pos`, `find_first_char` and the character predicates are not modelled as separate functions: `GetPathFileNamePos` and `IsPathTerminatedByRedundantSeparator` state the effect of the scans built on them.
- The messages written to `std::cerr` are not modelled.
- `std::system` is not modelled: `Run` returns the command it would launch.
- The name table of the method factory, filled by static registrations, is modelled as the fixed function `MethodByName`.
- `std::toupper` is modelled for ASCII letters only, as in the "C" locale.
- The layout of `unsigned int`, `size_t` and the enum is fixed to 4, 8 and 4 bytes, little-endian.
- The snapshot file's last-write time, its bytes, and whether it can be opened for writing are inputs to `Run`, and the clock is not modelled.
- Detfc.Run: requires at least one argument (the program name), as `parse` asserts.
- FastCheck.CheckingMethod0.WriteDB: models only the truncation; the new last-write time the truncation gives the file is the `now` of `Detfc.FastRerun`.
- BinaryIO.ReadStringBinary and, through it, Detfc.Run: the allocation of a buffer of the length read (src/binaryio.h:47-48) is taken to succeed. In the source, a corrupt snapshot holding a length that cannot be allocated makes `new` throw `std::bad_alloc`. Nothing catches it, so the process ends before `check`, `writeDB` or `std::system` run. In the model the read goes ahead as it does for any length (a stream shorter than the length sets the fail bit), and `Run` goes on to exit code 0.
- Directory loops that never end (a link back up the tree) cannot occur: the `Filesystem` tree is finite.

Behaviour of the code worth noting:

- `concatPath` adds a separator after `C:\`, giving `C:\\x` (`PathStrings.ConcatAfterDriveRootDoublesSeparator`).
- Method 1's first run, with no snapshot file, reports no change when nothing is in scope at the top level and nothing is descended into (`DirSummaryCheck.FirstRunWithNothingInScope`).
- A rerun on unchanged targets reports no change only when no path is met twice. Overlapping or repeated targets make every run report a change (`DirSummaryCheck.RepeatedDirectoryAlwaysChanged`, `FileStatCheck.RepeatedPathAlwaysChanged`).
- Method 0 uses reference time 0 when the snapshot file cannot be read, so the first run reports a change for any in-scope entry with a non-zero time (`FastCheck.MissingSnapshotDetectsAnyWrite`).
- Method 2 rebuilds a stored entry by splitting its path again, which may not give back its directory and name. Only type, size and time are compared, so this does not affect the verdict (`FileStatCheck.RebuiltEntrySame`). For ordinary entries the rebuilt entry is exact (`FileStatCheck.RebuiltEntryExact`).
