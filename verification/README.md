# Winpinator: a verified model

Winpinator is a Windows client for the Warpinator protocol: it finds other computers in the local
network, sends files and directories to them, receives theirs, and keeps a history of all
transfers. This project models the parts of it that hold real algorithms and proves what they keep.

* **History.** `Calendar`, `TimeBuckets` and `Chronology` cover the ten calendar buckets of the
  history page; `Database`, `DatabaseProperties`, `DatabaseLaws` and `SchemaUpgrade` the history
  database with its transactions, result codes and version upgrades; `TransferHistory` and
  `HistoryProperties` the page that merges query results into what it already shows.
* **Sending.** `Paths` and `FileTree` hold texts, paths and a finite file system that may contain
  cycles; `FileCrawler`, `CrawlProperties`, `CrawlResult`, `CrawlTotals` and `CrawlCost` the collection
  of the files to send; `FileSender`, `TransferReceiver`, `StreamRoundTrip`, `FileModes`, `Delivery` and
  `ReceiverLaws` the stream and its receiver; `FileListDialog`, `FileListTree` and `SortedTree` the tree shown for a transfer;
  `Pipeline` puts them together, from the dropped elements to the receiver's directory and tree.
* **Remotes.** `RemoteManager` and `RemoteLaws` cover the list of known computers and their threads,
  `RemoteHandler` the connection loop of one of them, with a record of everything it asked.
* **Progress.** `SpeedCalculator` and `SpeedLaws` cover the sliding window behind the reported speed
  and the remaining time.

Objects that the program updates in place are classes, and each method is proved against a
specification function or a relation between its old and new state; the main results are lemmas
about those functions. What the environment decides (result codes, statuses, clock readings,
answers of the network, requests to stop) comes in as parameters or scripts, so that every result
holds for all of its choices. Times are seconds in a fixed offset `tz` from UTC; the calendar is
the proleptic Gregorian one, and `mktime` normalises as in section 7.27.2.3 of ISO/IEC 9899:2011.

Where the code does not do what its surroundings suggest, the model follows the code, a lemma names
an input that shows it, and another says exactly when the expected property holds:

* A group of the history page keeps entries older than its oldest record, so deleting the oldest
  record leaves it on the page; of two transfers of the same second, deleting one shows the other
  twice (`DeletedOldestStays`, `EqualTimestampsDuplicate`, `ShowsRecordsExactly`).
* The error codes 1, 4 and 5 have no bit that 101 lacks, so a later `SQLITE_DONE` absorbs them and
  the transaction commits, possibly with path rows that belong to no transfer
  (`StepsCommitExactly`, `AbsorbedFailureOrphans`, `ReferencesKeptExactly`).
* An element dropped with a trailing separator that is itself the common root makes the two paths of
  the crawl diverge (`InStepExactly`); nested dropped elements are counted twice
  (`CountedOnceExactly`, `TotalExactly`).
* A relative path of one character counts as executable (`IsFileExecutable`, `ModesExactly`).
* A received directory replaces a file of its name even when files may not be replaced
  (`DirectoryReplacesFile`, `ExistingFilesKept`).
* The tree of a transfer shows an entry in the wrong place when a listed path continues the text of
  a directory with a character below the backslash, as "doc.txt" does for "doc" (`TreeExactly`,
  `DotDisturbs`), or when a directory's text occurs inside a longer name (`SubstringMisleads`,
  `AttachedExactly`).
* The upgrade of a history file that has no version row but an index or view of a later version
  repeats for ever (`EnforceIntegrity`).
* A version 2 connection ends with its thread's `stopping` set, so at most one is made in a run
  (`Process`). `processAddHost` joins that thread while it holds the manager's mutex, and waits for
  ever exactly when the thread is past its registration and has not made its last status write
  (`BrokenConnectionBlocks`, `CanEndExactly`). After `stop`, hosts that were known before are ignored (`ProcessAddHost`).

## Model

| member | source | states |
|---|---|---|
| Calendar.DateOf | src/service/database_utils.cpp:21-25 | the civil date of any day number: valid, and numbered by that day, leap years included; `Chronology.DayNumberIs` says what is numbered |
| Calendar.DateRoundTrip | src/service/database_utils.cpp:21-25 | a valid civil date is determined by its day number |
| Calendar.DateOrder | src/service/database_utils.cpp:21-25 | a valid civil date is earlier than another, by year, month and day, exactly when its day number is smaller |
| Chronology.DayNumberIs | src/service/database_utils.cpp:21-25 | the day number of a valid date in closed form: 365 per year and a leap day every 4 but not every 100 but every 400 years, months of 31 and 30 days, counted from 1970-01-01 |
| Calendar.MkTimeRoundTrip | src/service/database_utils.cpp:21-25 | `mktime` undoes `localtime`, and normalising a clock reading changes nothing |
| Chronology.LocalTimeRoundTrip | src/service/database_utils.cpp:103-110 | a valid date and time of day come back from `localtime` as they went into `mktime`, for every offset, with the day of the week in range |
| Chronology.WeeksBeginOnMonday | src/service/database_utils.cpp:170-183 | 1970-01-05 was a Monday, and a new week begins at a midnight exactly when that day is a Monday |
| TimeBuckets.WeekStartDay | src/service/database_utils.cpp:170-183 | moving `tm_mday` back to Monday, below 1 if need be, gives midnight of the Monday of that week |
| TimeBuckets.MkTimeInPlace | src/service/database_utils.cpp:103-110 | `mktime` of a date's midnight gives that midnight, and leaves every field normalised for the decrement that follows |
| TimeBuckets.BoundariesAreOrdered | src/service/database_utils.cpp:27-158 | for every current day the start of the month before, the month, the week, the year and the year before are ordered as the conditions need |
| TimeBuckets.BucketByBoundaries | src/service/database_utils.cpp:27-158 | comparing a day with the boundaries puts it where a calendar does: its week, civil month and civil year |
| TimeBuckets.ConditionMeansBucket | src/service/database_utils.cpp:27-158 | for every current time and timestamp, a bucket's half-open interval holds exactly when the calendar puts the timestamp there, so no gap and no overlap |
| TimeBuckets.BucketsMonotone | src/gui/transfer_history.cpp:402-409 | an older timestamp is never in an earlier group |
| TimeBuckets.ConditionAtMidnight | src/service/database_utils.cpp:27-158 | the in-place `tm` arithmetic of each of the ten cases computes the interval between the day boundaries |
| TimeBuckets.GetSpecSQLCondition | src/service/database_utils.cpp:13-161 | the printed condition holds of exactly the timestamps that a calendar puts into the bucket, with the dates of `DayNumberIs` and the weeks of `WeeksBeginOnMonday`; time 0 stands for a fresh clock reading |
| Database.DatabaseManager.EndTransaction | src/service/database_manager.cpp:118-130 | success exactly for result 0; otherwise the remembered tables are back |
| Database.DatabaseManager.Accumulate | src/service/database_manager.cpp:5-9 | one statement of a transaction: it takes effect if its code is the success code, and its code joins the accumulator bit by bit |
| Database.DatabaseManager.AddTransfer | src/service/database_manager.cpp:235-308 | a closed database answers false and changes nothing; otherwise the result and the tables are those of the transaction of one transfer row and one path row per element |
| Database.DatabaseManager.ClearAllTransfers | src/service/database_manager.cpp:310-329 | the same for deleting all transfers and all paths |
| Database.DatabaseManager.ClearAllTransfersForRemote | src/service/database_manager.cpp:331-369 | the same for deleting a target's paths, then its transfers |
| Database.DatabaseManager.DeleteTransfer | src/service/database_manager.cpp:371-401 | the result and the tables are those of deleting one transfer, then its paths; `DeletionIsExact` says what that leaves |
| Database.DatabaseManager.QueryTransfers | src/service/database_manager.cpp:403-474 | the target's rows that satisfy the condition, newest first, with enumerations corrected and paths if asked for |
| Database.DatabaseManager.QueryTransferPaths | src/service/database_manager.cpp:476-503 | the record's own path rows in row order, after what it already holds |
| Database.DatabaseManager.GetTransfer | src/service/database_manager.cpp:505-520 | the first row with that id and target, or none |
| Database.DatabaseManager.UpdateTarget | src/service/database_manager.cpp:522-553 | the result and the tables of replacing the target's row |
| Database.DatabaseManager.RemoveTarget | src/service/database_manager.cpp:583-625 | the result and the tables of deleting a target, its paths and its transfers |
| Database.DatabaseManager.RemoveAllTargets | src/service/database_manager.cpp:627-657 | the same for all targets, paths and transfers |
| DatabaseProperties.LoudStays | src/service/database_manager.cpp:7-9 | a code with a bit outside 101 is never lost, whatever the other codes are |
| DatabaseProperties.StepsCommitExactly | src/service/database_manager.cpp:118-130 | any number of `sqlite3_step` codes commits exactly when the last is DONE and the others are DONE, 1, 4 or 5 |
| DatabaseProperties.ExecsCommitExactly | src/service/database_manager.cpp:310-329 | `sqlite3_exec` codes commit exactly when all are 0 |
| DatabaseProperties.Atomicity | src/service/database_manager.cpp:235-401 | with no absorbed code, every operation takes full effect and reports success, or leaves all tables as they were |
| DatabaseProperties.OperationKeepsKeys | src/service/database_manager.cpp:235-308 | transfer ids stay unique and increasing whatever the steps answer |
| DatabaseProperties.ReferencesKeptExactly | src/service/database_manager.cpp:235-401 | every path row keeps an existing transfer after an operation, except exactly when the codes commit it although a step failed on which later references depend |
| DatabaseProperties.IntegrityOverRuns | src/service/database_manager.cpp:235-657 | over every sequence of operations whose failures are not absorbed, ids stay unique and no path row is orphaned |
| DatabaseProperties.AbsorbedFailureOrphans | src/service/database_manager.cpp:235-308 | a failure with code 1 while adding one file commits a path row without a transfer |
| DatabaseProperties.OrderedIsSorted | src/service/database_manager.cpp:417-431 | the ordered query is a descending permutation of the selected rows |
| DatabaseProperties.UnseenDeletion | src/service/database_manager.cpp:331-369 | a query that cannot see the deleted transfers reads the same records, paths included, whether or not the paths of the deleted ones went too |
| DatabaseProperties.RemovalIsExact | src/service/database_manager.cpp:331-369 | a committed per-target removal leaves no record of the target, and every query for another target as it was; the target's path rows and its own row go unless their step failed and was absorbed |
| DatabaseLaws.DeletionIsExact | src/service/database_manager.cpp:371-401 | a committed deletion takes the path rows of that id and no others, the record unless its step failed and was absorbed, and no target; every query that does not match the record reads the same |
| DatabaseLaws.ClearingIsExact | src/service/database_manager.cpp:310-329 | committed, clearing the history leaves no record, no path row, and the targets and both id sequences as they were |
| DatabaseLaws.RemovalOfAllIsExact | src/service/database_manager.cpp:627-657 | committed, removing all targets leaves no record; targets and path rows go unless their step failed and was absorbed |
| DatabaseLaws.UpdateTouchesTargets | src/service/database_manager.cpp:522-553 | updating a target leaves transfers, paths and both sequences alone, whatever the codes |
| DatabaseLaws.AdditionAppends | src/service/database_manager.cpp:235-308 | a committed addition keeps every row and appends the record under the next id if its step was done, and path rows that belong to it, or to the last row id of the connection if that failure was absorbed |
| DatabaseLaws.AdditionUnseen | src/service/database_manager.cpp:235-308 | every query that does not match the added record reads the same as before, paths included |
| DatabaseProperties.TargetReplaced | src/service/database_manager.cpp:522-553 | updating a target leaves exactly one row of it, the new one, all other rows, and the new row's id as the last inserted one |
| DatabaseProperties.AddThenGet | src/service/database_manager.cpp:403-520 | reading any added transfer back gives the record with its elements in order and its enumerations in range, up to the ids the database chose |
| SchemaUpgrade.UpgradingDatabase.UpdateFromVer0ToVer1 | src/service/database_manager.cpp:160-200 | succeeds exactly when all commands do and neither the version row nor an index or view it creates is there; then the file has all objects of version 1 besides its own |
| SchemaUpgrade.UpgradingDatabase.UpdateFromVer1ToVer2 | src/service/database_manager.cpp:202-217 | succeeds exactly when both commands do and the version table is there; adds the targets table and moves an existing version row to 2 |
| SchemaUpgrade.UpgradingDatabase.UpdateFromVer2ToVer3 | src/service/database_manager.cpp:219-231 | succeeds exactly when both commands do, the version table is there and the view is not; adds the view and moves an existing version row to 3 |
| SchemaUpgrade.UpgradingDatabase.PerformUpdate | src/service/database_manager.cpp:140-158 | for any file and level, the whole update takes effect exactly when nothing disturbs it and the file lets it through; otherwise the file is as it was |
| SchemaUpgrade.UpgradingDatabase.EnforceIntegrity | src/service/database_manager.cpp:77-111 | for any file: the loop can end exactly if the file is up to date or nothing an update will create is there already, and then four undisturbed rounds end it; the version never falls, no object is lost, and a file with the objects of its version keeps to that and ends with all eight objects and version 3 |
| TransferHistory.ScrolledTransferHistory.constructor | src/gui/transfer_history.cpp:60-93 | a new page satisfies the page invariant: eleven registered headers and no rows |
| TransferHistory.ScrolledTransferHistory.UnregisterHistoryItem | src/gui/transfer_history.cpp:148-165 | one registration of the item is gone, and nothing else |
| TransferHistory.ScrolledTransferHistory.AddPendingTransfer | src/gui/transfer_history.cpp:214-248 | the new row is first, ids and rows stay in lockstep, the registry is exactly what is on the page, and the ten groups are refreshed |
| TransferHistory.ScrolledTransferHistory.UpdatePendingTransfer | src/gui/transfer_history.cpp:250-272 | exactly the rows with that id are revised |
| TransferHistory.ScrolledTransferHistory.DeletePendingTransfer | src/gui/transfer_history.cpp:274-294 | exactly the row with that id is erased, and the ten groups are refreshed |
| TransferHistory.ScrolledTransferHistory.EraseTransfer | src/gui/transfer_history.cpp:276-290 | exactly the row with that id is erased, although the loop steps on after erasing |
| TransferHistory.ScrolledTransferHistory.ClearGroup | src/gui/transfer_history.cpp:413-430 | without records a group is emptied, and its rows leave the registry |
| TransferHistory.ScrolledTransferHistory.PlaceRecord | src/gui/transfer_history.cpp:434-503 | one record of the in-place merge: what lies before it is untouched, and placing it and merging the rest gives the whole merge |
| TransferHistory.ScrolledTransferHistory.ReconcileGroup | src/gui/transfer_history.cpp:432-504 | after record j the first j + 1 rows are final; the result is the merge of records and shown rows |
| TransferHistory.ScrolledTransferHistory.UpdateGroup | src/gui/transfer_history.cpp:411-504 | one group is merged, the others stay, and lockstep and registry hold for the whole page |
| TransferHistory.ScrolledTransferHistory.RefreshGroup | src/gui/transfer_history.cpp:402-504 | a group shows the merge of its bucket's query with what it showed |
| TransferHistory.ScrolledTransferHistory.UpdateTimeGroups | src/gui/transfer_history.cpp:393-594 | the same for all ten groups, with lockstep and registry kept |
| TransferHistory.ScrolledTransferHistory.OnThreadEvent | src/gui/transfer_history.cpp:632-666 | the pending list refines a map keyed by transfer id; the ten groups are refreshed, except when a known transfer is only updated |
| TransferHistory.LatestShown | src/gui/transfer_history.cpp:250-272 | over every run of events, a transfer is pending exactly if the last event about it was not its removal, with the state and progress of that event and the details of the event that brought it into that state |
| TransferHistory.ReconciledData | src/gui/transfer_history.cpp:432-504 | the merged rows are the records followed by the shown rows that the merge did not reach, for any lists |
| HistoryProperties.StaleEntries | src/gui/transfer_history.cpp:432-504 | with descending, distinct times, the rows not reached are exactly those older than the oldest record |
| HistoryProperties.ShowsRecordsExactly | src/gui/transfer_history.cpp:411-504 | for descending lists, ties or not, a group shows its records exactly when there are none, or no shown row is older than the oldest of them and the shown rows of its second survive in order |
| HistoryProperties.DeletedOldestStays | src/gui/transfer_history.cpp:432-504 | deleting the oldest of two records leaves it on the page |
| HistoryProperties.EqualTimestampsDuplicate | src/gui/transfer_history.cpp:451-470 | with equal timestamps, deleting one record shows the other twice |
| HistoryProperties.NothingDeleted | src/gui/transfer_history.cpp:432-504 | if nothing shown was deleted, the group shows exactly its records, ties or not |
| HistoryProperties.RowsOfGroupsCount | src/gui/transfer_history.cpp:402-409 | every stored row of the target is in exactly one group, as often as it is stored |
| HistoryProperties.HigherGroupIsNewer | src/gui/transfer_history.cpp:402-409 | nothing in a lower group is newer than anything in a higher one |
| HistoryProperties.TenQueriesAreOne | src/service/database_manager.cpp:417-431 | the ten queries in order are a descending permutation of the unfiltered query, and equal to it for distinct timestamps |
| HistoryProperties.FreshPageShowsHistory | src/gui/transfer_history.cpp:60-104 | a new page refreshed once shows, in any case, a descending permutation of the target's rows, and exactly the unfiltered query if the target's timestamps are distinct |
| FileTree.ResolveAppend | src/service/file_crawler.cpp:343-353 | following a path in two parts is following it at once |
| FileTree.ResolveEntry | src/service/file_crawler.cpp:343-353 | a listed entry's path leads to its target |
| FileCrawler.FindRoot | src/service/file_crawler.cpp:189-247 | the longest common directory prefix of paths on one volume, or nothing exactly when the volumes differ or the text would be empty |
| FileCrawler.Crawl.PerformFilesystemDFS | src/service/file_crawler.cpp:308-365 | fails exactly when something is listed more than 256 levels below; otherwise emits and counts exactly the tree below the location |
| FileCrawler.Crawl.VisitEntries | src/service/file_crawler.cpp:333-354 | the same for the entries of a listing, in order |
| FileCrawler.Crawl.StepBack | src/service/file_crawler.cpp:286-290 | both paths lose the same number of names, the relative one not below empty |
| FileCrawler.Crawl.StepDown | src/service/file_crawler.cpp:292-299 | both paths gain the missing directories, and each of them is emitted |
| FileCrawler.Crawl.FindAndUnwindElement | src/service/file_crawler.cpp:261-306 | one dropped element moves the walk from the common directory to the element and emits its tree, or fails exactly when that is too deep |
| FileCrawler.FindTopDirs | src/service/file_crawler.cpp:143-149 | the first names of all paths, in order and each once |
| FileCrawler.CountTopDirs | src/service/file_crawler.cpp:151-170 | how many of the names are files and how many are directories |
| FileCrawler.CrawlJobMain | src/service/file_crawler.cpp:88-187 | fails exactly when there is no root or something is too deep; otherwise reports the sorted texts of what was emitted, its cost, and the top-level names and counts |
| CrawlProperties.TooDeepExactly | src/service/file_crawler.cpp:319-322 | the walk fails exactly when a path of more than 256 listed names exists, cycles included |
| CrawlProperties.TreePaths | src/service/file_crawler.cpp:324-364 | the walk collects exactly the paths within its depth that reach something through listed entries |
| CrawlProperties.SubtreeExactly | src/service/file_crawler.cpp:308-365 | a walk that succeeds collects exactly the element's subtree, hidden entries as the flag says |
| CrawlResult.WalkInStep | src/service/file_crawler.cpp:261-306 | while no element lies above the root, the location is always the root followed by the relative path, and never above the root |
| CrawlResult.InStepExactly | src/service/file_crawler.cpp:108-121 | that holds for the whole job exactly when no element with a trailing separator is the root itself |
| CrawlResult.EmittedExactly | src/service/file_crawler.cpp:106-173 | the job emits exactly the directories on the way to each element and each element's subtree |
| CrawlResult.BelongsClosed | src/service/file_crawler.cpp:292-299 | with every emitted path its directory is emitted; appended to the root it names an existing entry, and its directory a directory |
| CrawlTotals.ReportedPaths | src/service/file_crawler.cpp:123-128 | the reported texts are those of the emitted paths |
| CrawlTotals.TopNames | src/service/file_crawler.cpp:143-149 | the reported top-level names are exactly the emitted paths of one name |
| CrawlTotals.EveryTopCounted | src/service/file_crawler.cpp:151-173 | the two counts add up to the number of top-level names |
| CrawlTotals.TotalCoversFiles | src/service/file_crawler.cpp:329-363 | the reported total is at least the size of all listed files together |
| CrawlTotals.CountedOnceExactly | src/service/file_crawler.cpp:329-363 | no path is visited twice exactly when no dropped element lies inside another |
| CrawlCost.TotalIs | src/service/file_crawler.cpp:329-363 | the total of a list of visits is the sum over the distinct paths and what was counted again |
| CrawlCost.TotalExactly | src/service/file_crawler.cpp:324-363 | the reported total is the sum over the distinct reported paths, whole blocks for a file, 4096 for a visited directory and nothing for one merely on the way, exactly when no two dropped elements lead to the same node of positive cost; otherwise it is larger; it is that sum when no element lies inside another |
| CrawlCost.CostIs | src/service/file_crawler.cpp:324-363 | a directory costs 4096, a file its size rounded up to a multiple of 4096 |
| FileSender.RFind | src/service/file_sender.cpp:289-295 | the last position of a text, or `npos` exactly when there is none |
| FileSender.IsFileExecutable | src/service/file_sender.cpp:286-298 | exactly for names of one character, names that end in "py" or "sh", and data with an ELF header |
| FileSender.FileSender.UpdateProgress | src/service/file_sender.cpp:250-284 | the bytes are added, or the announced total is set; the interface is told at the end, or after more than 250 ms, and only in a running transfer |
| FileSender.FileSender.SendSingleFile | src/service/file_sender.cpp:108-196 | without opening the file nothing happens; otherwise its chunks, its size and its record are added, and the progress rises; `ModesExactly` says with which permissions |
| FileSender.FileSender.SendSingleDirectory | src/service/file_sender.cpp:198-238 | one chunk without data, and one record |
| FileSender.FileSender.SendSingleEntity | src/service/file_sender.cpp:91-106 | what exists is sent as what it is; what is gone or cannot be opened leaves nothing behind |
| FileSender.FileSender.TransferFiles | src/service/file_sender.cpp:68-89 | succeeds exactly when every path can be sent in a running transfer; sends and records the paths before the first that cannot, in order, and nothing of that one; the progress rises throughout, and on success ends at the announced total without falling exactly when no more was read |
| StreamRoundTrip.FileChunks | src/service/file_sender.cpp:125-173 | chunk k of a file holds its k-th MiB, only the last chunk is empty, and all carry the same name and mode |
| StreamRoundTrip.ChunksContiguous | src/service/file_sender.cpp:73-85 | between two chunks of one path there is no chunk of another |
| StreamRoundTrip.ChunkOnTheWire | src/service/file_sender.cpp:145-160 | each chunk carries its piece of the data, compressed exactly if the level is positive |
| StreamRoundTrip.LinkedWhen | src/service/transfer_manager_reactor.cpp:87-120 | sender and receiver fit together if both compress or neither does, decompressing undoes compressing on a MiB or less, and plain paths are placed under their names |
| FileModes.ModesExactly | src/service/file_sender.cpp:125-143 | in the stream of a listing a file chunk has the permissions of executables exactly if its name has one character or ends in "py" or "sh", or the first chunk of the file begins with 0x7F, E, L, F, and otherwise those of files; a directory chunk has those of directories |
| TransferReceiver.StartTransferReactor.UpdatePaths | src/service/transfer_manager_reactor.cpp:147-214 | a chunk with a new, valid path adds one element and, without a slash, one to the count of its kind; any other chunk changes nothing |
| TransferReceiver.StartTransferReactor.ProcessData | src/service/transfer_manager_reactor.cpp:244-295 | a new path closes the file and creates the next, a known one appends, a directory replaces a file in its place; what cannot be made asks to stop |
| TransferReceiver.StartTransferReactor.OnReadDone | src/service/transfer_manager_reactor.cpp:87-120 | the state after one chunk: bookkeeping first, then the decompressed size, then the data |
| TransferReceiver.StartTransferReactor.ReceiveStream | src/service/transfer_manager_reactor.cpp:50-54 | the state after all chunks, one by one in order |
| Delivery.RoundTrip | src/service/transfer_manager_reactor.cpp:87-295 | receiving the stream of a listing gives, at every path, the listed directory, the listed file's data unless something was in the way, and otherwise what was there; elements, counts, bytes and requests to stop are those of the listing |
| Delivery.RebuiltExactly | src/service/transfer_manager_reactor.cpp:258-293 | the receiver asks to stop exactly when a directory, or a file that must be kept, is in the way of a listed file; if not, every listed path is there with its contents, and no other path changes |
| ReceiverLaws.OnlyNamedTouched | src/service/transfer_manager_reactor.cpp:244-295 | whatever arrives, nothing changes outside the places of the received paths, and a directory stays a directory |
| ReceiverLaws.ExistingFilesKept | src/service/transfer_manager_reactor.cpp:258-279 | unless files may be replaced, an existing file keeps its data whatever arrives, short of a directory of its name |
| ReceiverLaws.DirectoryReplacesFile | src/service/transfer_manager_reactor.cpp:280-294 | a directory of its name replaces a file although files may not be replaced |
| ReceiverLaws.BooksAreKept | src/service/transfer_manager_reactor.cpp:147-214 | whatever arrives, no recorded path holds a colon, neighbours differ, the directory count is that of the recorded top-level ones and the file count at most that and exactly that for files and directories, and the counted bytes are those of all chunks |
| Delivery.SameElements | src/service/file_sender.cpp:175-193 | sender and receiver record the same name, type and relative path: the last name, what it is, and the names with slashes; and each the absolute path on its own side, for the sender volume, root and names |
| FileListDialog.Pop | src/gui/file_list_dialog.cpp:118-129 | what is left after popping every level up to the first whose text the path contains |
| FileListDialog.LoadPaths | src/gui/file_list_dialog.cpp:104-162 | one item per element, in order, appended where the stack says; the stack is never empty |
| FileListDialog.StackExactly | src/gui/file_list_dialog.cpp:116-150 | for any list, a folder is on the stack exactly while every path since then contained its text |
| FileListDialog.ParentExactly | src/gui/file_list_dialog.cpp:131-157 | for any list, an element is attached to the last folder before it whose text every path since then and its own contain, else to the root |
| FileListTree.AttachedExactly | src/gui/file_list_dialog.cpp:116-162 | for any list with each folder once, an element is attached to its nearest listed ancestor exactly when that ancestor stays on the stack and no folder after it does |
| FileListTree.AttachedInOrder | src/gui/file_list_dialog.cpp:116-162 | where folders on the stack contain what follows them, exactly when only what lies below the nearest ancestor is listed between it and the element |
| FileListTree.PreOrderIsRight | src/gui/file_list_dialog.cpp:116-162 | in a pre-order list every element is attached to its nearest listed ancestor folder |
| FileListTree.SubstringMisleads | src/gui/file_list_dialog.cpp:121 | "ba/x" after the folder "a" is attached to it |
| SortedTree.KeptIsBelow | src/gui/file_list_dialog.cpp:118-129 | in a sorted list with all directories, a folder on the stack has only its own contents after it, although the code looks for its text anywhere |
| SortedTree.TreeExactly | src/gui/file_list_dialog.cpp:116-162 | in such a list every element is attached to its directory exactly when no listed path continues the text of a non-empty directory with a character below the backslash |
| Pipeline.SoundExactly | src/service/file_crawler.cpp:100-121 | what the results about a successful job ask of its elements holds exactly when all of them exist and none with a trailing separator is the root itself |
| Pipeline.CrawlIsListing | src/service/file_crawler.cpp:106-141 | a crawl job lists existing paths in order, each once, and every directory before all that is beneath it |
| Pipeline.RootTextExactly | src/service/file_crawler.cpp:100-104 | the text of the root is empty exactly when the job fails for it |
| Pipeline.CountsAgree | src/service/transfer_manager_reactor.cpp:198-211 | the receiver counts the top-level files and folders that the crawl job reported |
| Pipeline.SendCrawled | src/service/transfer_manager.cpp:469-517 | for a crawled list the progress rises and never exceeds the announced total; a running transfer finishes exactly when every path can be sent while it was neither failed nor stopped, with the whole stream, all records and the total, and otherwise fails for good |
| Pipeline.EndToEnd | src/service/transfer_manager.cpp:1097-1144 | the receiver ends up with exactly what was dropped and reached, nothing else changes, an empty output directory is never in the way, the counts match, and no more bytes are counted than announced |
| Pipeline.ReceivedTree | src/gui/file_list_dialog.cpp:104-163 | the tree of a received transfer is the tree of its paths exactly when no listed path comes between a directory and its contents |
| Pipeline.SentTree | src/gui/file_list_dialog.cpp:104-163 | the same for the elements the sender recorded |
| Pipeline.DotDisturbs | src/gui/file_list_dialog.cpp:118-129 | "doc/x" after "doc" and "doc.txt" is attached to the root |
| Pipeline.DotIsSorted | src/service/file_crawler.cpp:123-128 | the list "doc", "doc.txt", "doc\\x" is one a crawl can report, and "doc.txt" disturbs it |
| RemoteManager.ApiVersion | src/service/remote_manager.cpp:201-217 | always 1 or 2, and 2 exactly for an announced version of at least 2 |
| RemoteLaws.AtoiReads | src/service/remote_manager.cpp:185-217 | a number in decimal notation is read back whatever follows its digits, also negative or after a blank |
| RemoteManager.StripExactly | src/service/remote_manager.cpp:324-341 | stripping undoes appending the service type, and changes nothing that does not end in it after a dot |
| RemoteManager.Manager.Stop | src/service/remote_manager.cpp:44-65 | returns exactly when the turns of the threads bring all of them to their end; then the list is empty; the recorded keys stay in any case |
| RemoteManager.Manager.ProcessAddHost | src/service/remote_manager.cpp:116-246 | keys stay distinct and recorded with at most one thread each; a new host is added and started, a running one left alone, a recorded but unlisted one ignored; a stopping one is joined, the call returns exactly if its thread ends meanwhile, and then restarts it in place |
| RemoteManager.CanEndExactly | src/service/remote_manager.cpp:370-405 | while the mutex is held exclusively, some run of turns ends a thread exactly when it is not between registration and its last status write |
| RemoteManager.StuckWhileHeld | src/service/remote_manager.cpp:376-398 | while the mutex is held exclusively, no run takes a thread that needs it any further |
| RemoteManager.AllCanEnd | src/service/remote_manager.cpp:44-65 | with the mutex shared, threads that were all asked to stop can always all end |
| RemoteLaws.NeverBack | src/service/remote_manager.cpp:343-408 | in every run a thread never goes back a phase, keeps a request to stop, and gets one of its own only in the handler of version 2 |
| RemoteLaws.StoppedNeverShown | src/service/remote_manager.cpp:370-380 | a remote asked to stop while it registers never becomes visible in any run |
| RemoteLaws.AnnouncedIsServed | src/service/remote_handler.cpp:94-189 | in every run an announced version 1 remote stays in its handler until it is asked to stop |
| RemoteLaws.HandlingEndsExactly | src/service/remote_handler.cpp:40-62 | a handler can come to its end exactly when it is asked to stop, its version is 2, or its remote is no longer announced |
| RemoteManager.BrokenConnectionBlocks | src/service/remote_manager.cpp:165-172 | announcing a version 2 remote again after its connection broke never returns, whatever the threads do then and later |
| RemoteManager.Manager.Take | src/service/remote_manager.cpp:343-408 | one turn of a thread: a certificate is cached before the remote can become visible, a failed registration or a request to stop ends the thread, and what needs the mutex waits while it is held |
| RemoteManager.Manager.RunTurns | src/service/remote_manager.cpp:343-408 | in any run of turns every thread goes its own way, keys stay distinct, and what is visible has a certificate |
| RemoteManager.Manager.ProcessRemoveHost | src/service/remote_manager.cpp:248-261 | exactly the hosts with that id lose their presence flag |
| RemoteHandler.Handler.SetRemoteStatus | src/service/remote_handler.cpp:551-568 | the status is written, with one fail-all call unless it is ONLINE or there is no transfer manager |
| RemoteHandler.Handler.CheckDuplex | src/service/remote_handler.cpp:127-142 | AWAITING_DUPLEX is written, then the check is made, and ONLINE follows exactly if it was answered yes |
| RemoteHandler.OnlineNextExactly | src/service/remote_handler.cpp:127-142 | in any call, every duplex check has its AWAITING_DUPLEX, and the next write is ONLINE exactly when that check was answered yes |
| RemoteHandler.AnswersCounted | src/service/remote_handler.cpp:94-212 | a call writes one AWAITING_DUPLEX per duplex check, one ONLINE per yes, and UNREACHABLE for a failed connect, in version 2 also for a failed check |
| RemoteHandler.UnreachableFirstExactly | src/service/remote_handler.cpp:191-209 | a call of either version begins with a connect, and its first write is UNREACHABLE exactly when that was answered no |
| RemoteHandler.Handler.RetryLater | src/service/remote_handler.cpp:145-163 | after the eleventh failed check the call is given up: it returns true after 30 seconds exactly if it was not asked to stop |
| RemoteHandler.Handler.HeadOfRound | src/service/remote_handler.cpp:166-182 | between two rounds it waits 20 seconds when ONLINE and 1 otherwise, and reads the request to stop again |
| RemoteHandler.Handler.PingLoop | src/service/remote_handler.cpp:94-189 | for every sequence of answers: given up exactly after 11 failed checks, a check after every answered ping until one succeeds, no ping while busy, `again` exactly as the request to stop and the presence of the remote say, and the writes are the replies to the answers |
| RemoteHandler.Handler.SecureLoopV1 | src/service/remote_handler.cpp:64-212 | the record of one loop call is lawful and its writes reply to it; false whenever the request to stop came first |
| RemoteHandler.Handler.SecureLoopV2 | src/service/remote_handler.cpp:214-368 | the same for version 2: one check if it could connect, 10 seconds and true exactly if it was not asked to stop after that; every connection leaves the request to stop set |
| RemoteHandler.Handler.Process | src/service/remote_handler.cpp:40-62 | in every run the writes are the replies to the answers of all calls and then OFFLINE, every call is lawful, in version 1 every call but the last returned true and the last false, at most one call follows a request to stop, and in version 2 all calls but the last were without a connection |
| RemoteHandler.BoundedPerCall | src/service/remote_handler.cpp:94-165 | in every run, per loop call at most 11 AWAITING_DUPLEX and one ONLINE in version 1, one each in version 2 |
| RemoteHandler.RunsAreOrderly | src/service/remote_manager.cpp:394-404 | in every run, each ONLINE directly follows AWAITING_DUPLEX of the same connection, and every other write fails all transfers if there is a transfer manager |
| SpeedCalculator.WeightsArePositive | src/gui/transfer_speed_calculator.cpp:95-125 | with non-decreasing times every fragment of positive length has positive weight |
| SpeedCalculator.SpeedIsConvex | src/gui/transfer_speed_calculator.cpp:75-140 | the reported speed lies between the rounded speeds of the slowest and the fastest fragment |
| SpeedLaws.SpeedInIntegers | src/gui/transfer_speed_calculator.cpp:75-140 | for any window in order the reported speed in integers: 1000 times the bytes over the milliseconds of its fragments, both weighted by the distance of their middles from the beginning of the ramp of at least 2000 ms, rounded |
| SpeedLaws.SteadySpeed | src/gui/transfer_speed_calculator.cpp:116-138 | samples at whole milliseconds that gain exactly r bytes per second are reported as r, however they are spaced |
| SpeedLaws.TwoSeconds | src/gui/transfer_speed_calculator.cpp:95-138 | a bytes in one second and b in the next are reported as (a + 3b) / 4, rounded |
| SpeedLaws.RoundNearest | src/gui/transfer_speed_calculator.cpp:138 | rounding gives the nearest integer, halves away from zero |
| SpeedLaws.TrimmedExactly | src/gui/transfer_speed_calculator.cpp:54-73 | a sample goes exactly if at least four newer ones stay and it is older than two seconds |
| SpeedCalculator.TimeIsConvex | src/gui/transfer_speed_calculator.cpp:143-192 | the remaining time lies between the smallest and the largest aged estimate, so it is not negative |
| SpeedLaws.TimeInIntegers | src/gui/transfer_speed_calculator.cpp:163-191 | the remaining time in integers: the aged estimates with weights 1, 2, 4 and so on, over the sum of the weights, rounded |
| SpeedLaws.TwoEstimates | src/gui/transfer_speed_calculator.cpp:163-191 | two fresh estimates x and y are reported as (x + 2y) / 3, rounded |
| SpeedLaws.AgedBySeconds | src/gui/transfer_speed_calculator.cpp:168-178 | an estimate is worth one second less for every second since, but never less than nothing |
| SpeedLaws.SteadyTime | src/gui/transfer_speed_calculator.cpp:143-192 | while a transfer moves at a steady rate, and its earlier estimates were right, the reported time is exactly the remaining bytes over the rate |
| SpeedCalculator.Trimmed | src/gui/transfer_speed_calculator.cpp:54-73 | what is left of a window is its end, and at least four samples if any went; `TrimmedExactly` says which go |
| SpeedCalculator.TransferSpeedCalculator.Reset | src/gui/transfer_speed_calculator.cpp:19-27 | one sample, no speed and no remaining time |
| SpeedCalculator.TransferSpeedCalculator.Update | src/gui/transfer_speed_calculator.cpp:29-42 | the new sample joins the trimmed window, which stays the end of all samples since the reset, and speed and time are those of the window |
| SpeedCalculator.TransferSpeedCalculator.RemoveOldestPoints | src/gui/transfer_speed_calculator.cpp:54-73 | samples older than two seconds go, but never below four |
| SpeedCalculator.TransferSpeedCalculator.RecalculateSpeedAndTime | src/gui/transfer_speed_calculator.cpp:75-141 | the running totals give the weighted mean speed of the window, whose value `SpeedInIntegers` and `SteadySpeed` state, or none when no time has passed |
| SpeedCalculator.TransferSpeedCalculator.CalculateTime | src/gui/transfer_speed_calculator.cpp:143-192 | the new estimate joins the last four, and the time is their halving mean, aged to now |

## Left out

- TimeBuckets.GetSpecSQLCondition: clock changes, `time_t` ranges and the limits of `localtime` are not modelled; the offset is fixed.
- Database.DatabaseManager.AddTransfer: SQL text and its parsing, the narrowing of row ids to int, and rollbacks by SQLite itself on a full disk are not modelled; a failing statement has no effect, and COMMIT and ROLLBACK succeed.
- Database.DatabaseManager.QueryTransfers: errors while stepping through a SELECT are not modelled; the model reads every row.
- SchemaUpgrade.UpgradingDatabase.EnforceIntegrity: the source repeats until it succeeds; the model is cut after the given rounds; the version row is an integer.
- TransferHistory.ScrolledTransferHistory.UpdateTimeGroups: drawing, visibility of headers, and the flag of the last row are not modelled.
- TransferHistory.ScrolledTransferHistory.AddPendingTransfer: it is called for new ids only, as `onThreadEvent` does; the transfers already pending when a page opens are added one by one like later ones.
- FileCrawler.CrawlJobMain: names are compared as they are, without regard to case-insensitive volumes; texts are compared by character; a volume's root as a dropped element is not modelled; the job that runs in its own thread is one call.
- FileCrawler.FindRoot: texts of paths are modelled by their parts, so the parsing of `wxFileName` is not part of this model.
- FileSender.FileSender.SendSingleFile: read errors, files that change while they are read, and a failed write to the stream are not modelled; waiting while paused changes nothing; the row id of an unsaved element is 0.
- FileSender.IsFileExecutable: lengths are below `npos`, as the library guarantees.
- TransferReceiver.StartTransferReactor.ProcessData: the normalisation of paths that are not plain names is a parameter; failures of the disk, the zone stream and the stop call itself are not modelled.
- TransferReceiver.StartTransferReactor.UpdatePaths: a chunk that is neither a file nor a directory leaves the element's type unset in the source; the model records a file.
- Delivery.RoundTrip: compression is a pair of functions with decompress after compress equal to identity on what a chunk can hold; symbolic links are followed, never sent.
- FileListDialog.LoadPaths: the texts of the other columns are not modelled.
- RemoteHandler.Handler.Process: a wait is recorded with its length, but no time passes; the asynchronous answer that can write ONLINE late and the avatar are left out; a script of answers that ends asks to stop.
- RemoteManager.Manager.ProcessAddHost: each step of a thread is atomic, its status writes before the last are not modelled there, and the mutex is a flag for its exclusive holder; `atoi` overflow and equal texts of different keys in the certificate cache are not modelled.
- SpeedCalculator.SpeedIsConvex: doubles are reals, so rounding errors are not modelled; windows longer than 24 days, where milliseconds overflow an int, are not modelled.
- Widgets, layout, dialogs, bitmaps, tray icon, settings, notifications, the permission picker, autorun, DDE messages and account pictures are platform code without algorithms.
- Generated protocol code, gRPC, OpenSSL, libsodium, base64 and zlib internals are not part of this model.
- The page of targets with its counts (`queryTargets`), and the favourite flag, would only add easy members.
- Service discovery (mDNS), ports, and the group code are outside; their results are parameters.
