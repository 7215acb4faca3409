# KeyTracker: a verified model

KeyTracker counts how often each key is seen and answers two questions quickly: which keys are the most
frequent, and is a given key a hot one. This project models its logic in Dafny and proves what its answers
mean.

- `TopLists` is the reference: sort every key by its count and take the first n. It knows nothing of the
  bounded ranking.
- `RankingIndex` is the index of `MapManager` on values: the full key map and the frequency ranking that is
  kept at no more than `max` pairs by an early exit, a scan-and-erase, an insert and a trim.
- `Manager` is the class `MapManager` with its fields and its iterator loops, each method proved equal to the
  value function that the theorems are about.
- `Purging` is the purge with its loop as written, the erase under the loop's own iterator included.
- `Runs` are whole histories: adds, size changes, zaps, purges and restores in any order. `Restarts` are
  histories with a backup, a fresh manager and a restore in the middle.
- `Decimal`, `TextStream`, `KeyOrder` and `BackupText` are the two backup files and the way back; `FileFormat` says
  what the files look like, `LoadedFiles` what a restore makes of any two files, `TruncatedBackup` what it makes of
  files that were cut short.
- `MessageQueue` is the queue with its producers, its worker thread and its destructor as interleaved steps;
  `ThreadedQueue` is the same queue as an object driving a `MapManager`, its loop with producers at work.
  `Delivery` says what messages leave stored, in terms of the messages.
- `Rotation` and `BackupManagers` are the ten-deep log of backup files.
- `MessageServer` are the two branches of `onMessage` that put messages on the queue; `ServerReplies` is the reply
  to getTopHotKeys.
- `LockProtocol` is the mutex, the writing flag and the condition variable, for any number of threads;
  `Clipping` are runs in which purges cut to lengths that were clipped earlier; `Blocking` is about readers that
  wait on the condition variable; `StaleClip` is one interleaving that no order of its calls explains.
- `OpenFiles` are backups that have opened, and so emptied, their files and not yet filled them.
- `EndToEnd` joins payloads, queue, index, files and slots; `OwnRestores` is what the tracker makes of its own
  backups, by payload history.
- `Instances` has, for each property that the code does not always have, a state or file at which it fails.
- `Examples` works one small history out to the letter: ranking, report, files, reply and messages.
- `Sequences` are three facts about cutting sequences.

## What the library is assumed to do

- `std::multimap` iterates by ascending key; `insert` puts a new element after all equal ones (section 26.2.6
  of ISO C++17); `find` returns the first equal element. The standard leaves the last open; libstdc++ returns
  the first, and both scans of the source need it.
- `std::map` iterates in the lexicographic order of its keys; `insert` does not replace.
- `std::getline`, `std::stoi` and `std::stoul` behave as in sections 24.3.3.9 and 24.3.4 of ISO C++17; `long` and
  `unsigned long` have 64 bits.
- The queue is a FIFO whose operations are atomic; a file is a string; a directory is a map from names to files;
  `rename` replaces its target; `std::ofstream` empties the file when it opens it, and writes from its start.

## Where the code differs from what it seems to want

The model follows the code. Each of these has its exact condition, and a lemma, named last, in which it happens;
those of `Instances` reach it from a constructor.

- `purge` erases up to one place before `base()`, so a purge that cuts leaves one ranked pair whose key is
  forgotten. `Purging.PurgeKeepsValidIff` says exactly when that happens, `PurgeCorrectedKeepsValid` that ending
  the erase at `base()` is right. After it, a purge to a larger length reaches the branch commented "should never
  happen" and erases the pair that its own `rend()` refers to, which is undefined: `LaterPurgeIsDefinedIff`,
  `PurgeBreaksIndex`.
- `purge` clips its length to the report size before it locks, so a size change in between makes the length stale:
  `CallsAreAtomicIff` says when the interleaving is one of the calls, `SameCutWhenValid` what its condition means
  in a valid index, `PurgeIsNotAtomic`.
- `isHotKey` looks in the whole ranking, not in the reported part: `HotEqualsReported`, `HotNotReported`.
- The sizes of the constructor are narrowed to 16 bits, and the maximum can end below the report size:
  `InitialBaseFits`, `NarrowedBelowBase`. A report is then too short: `ReportIsReference`, `ReportTooShort`.
  A maximum of 0 is possible that way, and then the return commented "Should never happen" is reached:
  `MissOnlyWithoutRanking`, `MaximumOfZero`.
- The port is read back by a signed conversion, and a key or url with a comma cannot be read back:
  `RoundTripIff`, `RoundTripFails`.
- A backup says nothing of the maximum it was made under: `RestoredElsewhereIff`, `RestoredElsewhereFails`.
- A cut backup file is restored with success: `TruncatedRestore`. The result is what was saved exactly if nothing
  was cut, `TruncatedRestoreIsExactIff`; when it is an index at all is in `TruncatedRestoreIsValidIff`,
  `CutToNothing`.
- A restore that throws leaves the writing flag set, and readers then block: `ReadersNeverBlockIff`,
  `FreeMutexMeansFlagDownIff`. The program's own backup can be such a file, with a port of 2^31 or, from the
  server, with a second comma in a payload and no number behind it: `OwnBackupsNeverBlockIff`,
  `OwnRestoreBlocksIff`, `OwnBackupBlocksReader`. With a number behind it the restore mends the record, which was
  stored without its port: `OwnBackupRestoresIff`, `RestoreMendsRecord`.
- A backup empties its files before it waits for the mutex, so a restore in between empties the manager, with
  success: `RestoreFindsLastIff`, `OpenBackupEmptiesRestore`. Of two backups that overlap the shorter one can be
  lost: `DumpIsWholeIff`, `ShorterDumpIsLost`.
- Two backup names of which one is a numbered slot of the other overwrite each other: `RotationLogIff`,
  `SlotsCollide`.

Four more that the theorems state directly:

- `keySent` searches its second comma from position 0 and finds the first again, so the url is everything after
  the first comma; its port travels in the 16-bit field and is read from the 32-bit one, so it arrives as 0.
- A size request is narrowed to 16 bits after it was found to be positive: `SizeRequestEffect`.
- The documentation (README.md:101) has a report size of 12 answered with 12 keys; the reply never has more than
  ten: `ReplyIsWholeIff`.
- The "reading" error of a restore is never reported: `NoReadError`.

Readers of the class require that the flag is down, because a lone thread would otherwise wait for ever;
`LockProtocol` proves when this holds among threads. Methods that scan the ranking require it sorted, which is
what the multimap guarantees and every method keeps.

## Model

| member | source | states |
|---|---|---|
| TopLists.TopListsAgree | src/MapManager.cpp:155-163 | any two lists of the highest-count keys of one table, of equal length, show the same counts place by place, however ties were broken |
| TopLists.SortIsFullSort | README.md:37-41 | the reference sort lists every key once, by non-increasing count |
| RankingIndex.InsertFresh | src/MapManager.cpp:92 | inserting a pair of an unranked key keeps the ranking sorted and duplicate-free and adds exactly that pair |
| RankingIndex.EraseExact | src/MapManager.cpp:72-90 | erasing removes exactly the (previous count, key) pair and keeps all others in order |
| RankingIndex.AddKeepsValid | src/MapManager.cpp:36-103 | every add keeps the ranking a true top-max of the key map: sorted, no key twice, stored counts, size min(max, keys), no unranked key above a ranked one |
| RankingIndex.EarlyExitUnranked | src/MapManager.cpp:61-68 | the early exit is taken only for a key that is not ranked, in a full ranking |
| RankingIndex.EarlyExitRefinesLongPath | src/MapManager.cpp:61-99 | skipping insert-and-trim leaves the identical ranking below the lowest count, and the same frequencies place by place at it |
| RankingIndex.AddMovesThresholdUp | src/MapManager.cpp:61-99 | in a full ranking the size stays, the lowest count never falls, only the front pair can leave, and only the added key can enter, by strictly exceeding the lowest count |
| RankingIndex.ReportIsReference | src/MapManager.cpp:148-164 | a report shows what a full sort would; it has min(base, keys) lines exactly if base or the number of keys is within max |
| RankingIndex.ReportRefinesSort | src/MapManager.cpp:148-164 | with base <= max the report is the base largest counts of the whole key map |
| RankingIndex.HotIsRanked | src/MapManager.cpp:122-146 | under the index invariant isHotKey is membership in the ranking |
| RankingIndex.MissOnlyWithoutRanking | src/MapManager.cpp:131-137 | the "should never happen" return is reached exactly for a known key in a manager whose maximum is 0 |
| RankingIndex.HotRankBounds | src/MapManager.cpp:122-146 | a hot key has fewer than max keys strictly above it; a known key with at most max keys at or above its count is hot |
| RankingIndex.HotEqualsReported | src/MapManager.cpp:122-164 | hot and reported agree for all keys exactly if the ranking is no longer than the report size |
| Purging.ClampPurge | src/MapManager.cpp:313-317 | a purge length is clipped to the nearest one from base to max; with base above max it is max for larger requests, else base |
| Purging.PurgeIsCut | src/MapManager.cpp:327-348 | without orphans the loop and the erase keep the n highest pairs and the one below them, and the details of the n highest keys |
| Purging.PurgeKeepsValidIff | src/MapManager.cpp:313-352 | as written, a purge keeps the invariant exactly if it has nothing to cut; if it cuts, one pair of a forgotten key stays |
| Purging.PurgeCorrectedKeepsValid | src/MapManager.cpp:344-348 | with the erase ending at base() both maps keep the same highest keys with their details, and the invariant holds |
| Purging.PurgeMeetsNoOrphan | src/MapManager.cpp:327-335 | under the invariant the purge loop meets no ranked key without details, and is defined |
| Purging.LaterPurgeIsDefinedIff | src/MapManager.cpp:327-345 | after a purge that cut, a later purge is defined exactly if it is to no larger length; a larger one erases the pair its own rend() refers to |
| Purging.OrphanCostsNext | src/MapManager.cpp:329-342 | a ranked key without details above the lowest pair is erased, and the pair below it is passed over without its details |
| Purging.SameCutIff | src/MapManager.cpp:321-351 | two lengths cut any index, orphans and repeated keys included, in the same way exactly if the loop to the smaller one stops where a further step changes nothing |
| Purging.SameCutWhenValid | src/MapManager.cpp:321-351 | in a valid index that is when both lengths keep equally many pairs |
| Runs.InitialIsValid | src/MapManager.cpp:19-28 | both maps start as a valid index |
| Runs.InitialSizes | src/MapManager.cpp:19-28 | both maps start empty; the sizes are the low 16 bits of n and of the larger of m and n + 4, for all 32-bit arguments |
| Runs.InitialBaseFits | src/MapManager.cpp:19-28 | for all 32-bit arguments and with n + 4 taken mod 2^32: the report size is within the maximum exactly if m exceeds that and n mod 2^16 <= m mod 2^16, or m does not and n mod 2^16 + 4 fits in 16 bits |
| Runs.RunKeepsValid | src/MapManager.cpp:36-364 | the index invariant holds after every run in which purges cut nothing and restores read backups made under the same maximum |
| Runs.RunKeepsBase | src/MapManager.cpp:105-120 | the report size never exceeds the maximum, over every run |
| Runs.ReportsAreExact | src/MapManager.cpp:148-164 | in every state of such a run of a manager that starts with base <= max, a report has min(N, keys) lines and shows the N largest counts of the whole map |
| Runs.RunCountsHistory | src/MapManager.cpp:38-59 | each key's stored count is its number of adds, its url and port are the last supplied, and no other key is stored |
| Runs.TotalIsAdds | src/MapManager.cpp:38-59 | the stored counts sum to the number of adds |
| Runs.OrderIndependence | src/MapManager.cpp:36-164 | counts and reported counts depend on the multiset of added keys alone |
| Runs.ThresholdNeverFalls | src/MapManager.cpp:61-99 | along any run of adds a full ranking stays full and its lowest count never falls |
| Runs.RunKeepsRecency | src/MapManager.cpp:61-92 | the ranking is strictly sorted by (count, time of the key's last add) after every run without restores |
| Runs.ReportOrder | src/MapManager.cpp:155-163 | a report lists equal-count keys most recently added first |
| Runs.LeaverIsOldestLowest | src/MapManager.cpp:94-99 | the key an add pushes out of a full ranking in recency order is lowest in count and, among equals, the one added longest ago |
| Restarts.RunKeepsSorted | src/MapManager.cpp:36-364 | the ranking is sorted after every run whatever, so the class methods can always be called |
| Restarts.RestartIsTransparent | src/MapManager.cpp:195-311 | backing up after any run, restoring into a fresh manager of the same sizes and going on gives both maps as without the restart, if the state was storable |
| Restarts.RestartsAreTransparent | src/MapManager.cpp:195-311 | the same for any number of restarts, if every state backed up was storable and there is no purge |
| Restarts.HistorySurvivesRestarts | src/MapManager.cpp:195-311 | across any number of such restarts, with adds and size changes in between, each count is the number of all adds, and equal counts are ordered by the last add |
| Manager.MapManager.Default | src/MapManager.cpp:12-17 | the default sizes are 10 and 20, the maps empty, the flag down |
| Manager.MapManager.constructor | src/MapManager.cpp:19-28 | the two sizes after 32-bit arithmetic and narrowing |
| Manager.MapManager.AddOrUpdateKey | src/MapManager.cpp:36-103 | the new state is the add of the value model, on any sorted ranking |
| Manager.MapManager.EraseFromRanking | src/MapManager.cpp:72-90 | the scan and erase remove the first (previous count, key) pair of any sorted ranking, or nothing |
| Manager.MapManager.TrimRanking | src/MapManager.cpp:94-99 | the trim loop leaves the highest max pairs from any starting length |
| Manager.MapManager.SetTopKeyReportBaseSize | src/MapManager.cpp:105-120 | the new size is the smaller of the request and the maximum; maps and maximum stay |
| Manager.MapManager.IsHotKey | src/MapManager.cpp:122-146 | the scan finds the pair (stored count, key) on any sorted ranking exactly if the key is stored and the pair is ranked |
| Manager.MapManager.GetTopHotkeys | src/MapManager.cpp:148-164 | what was there stays in front; then come min(base, ranked) lines, the highest pair first, each with the key of its pair and the decimal text of its count; in a valid index these are stored keys with their own counts |
| Manager.MapManager.BackupRequest | src/MapManager.cpp:195-231 | the loops write one line key,count,url,port for each key in lexicographic order, and one line count,key for each ranked pair from the lowest up |
| Manager.MapManager.RestoreRequest | src/MapManager.cpp:260-311 | the parse loops produce the restored state; the flag stays set exactly if the restore does not complete |
| Manager.MapManager.Purge | src/MapManager.cpp:313-352 | the loop with its orphan branch and the erase produce the purged state as written, whenever they are defined |
| Manager.MapManager.ZapAll | src/MapManager.cpp:354-364 | both maps are empty, the sizes stay |
| KeyOrder.OrderedAscends | src/MapManager.cpp:215-223 | the iteration order of the key map lists every key once, and an earlier key differs from a later one first by ending or by a smaller character |
| KeyOrder.BeforeIsLexicographic | src/MapManager.cpp:41-42 | the order of the keys is the lexicographic one |
| FileFormat.FilesHaveForm | src/MapManager.cpp:195-231 | the files of any state have that form, line by line |
| FileFormat.FormIsUnique | src/MapManager.cpp:215-223 | the form leaves nothing open: one key file has it |
| BackupText.RoundTripIff | src/MapManager.cpp:195-305 | restoring a backup gives back the same key map and the same ranking, tie order included, in any manager, exactly if no key or url has a comma, no ranked key a newline, and every port is below 2^31 |
| BackupText.NoReadError | src/MapManager.cpp:266-302 | whatever the files contain, the "reading" error is never reported |
| BackupText.RestoredElsewhereIff | src/MapManager.cpp:234-311 | a backup restored under another maximum is a valid index there exactly if both maxima cut the keys at the same place |
| BackupText.RestoreCompletesIff | src/MapManager.cpp:266-305 | a restore of any two files completes exactly if the numbers of all their complete records convert |
| LoadedFiles.RestoreLoads | src/MapManager.cpp:260-305 | for any two files: the restore throws at the first record that does not convert; the key map holds the first record of each key before it; the ranking is the old one if the key file threw, else the records before it, stably sorted by count; the sizes stay |
| LoadedFiles.KeyRecordsAreText | src/MapManager.cpp:266-273 | the key records of a text are the text, taken apart at three commas and a newline again and again, up to a rest that begins with no whole record |
| LoadedFiles.RankRecordsAreText | src/MapManager.cpp:289-294 | the same for the ranking file, at a comma and a newline |
| BackupText.OwnBackupParsesIff | src/MapManager.cpp:195-305 | the backup of a state with comma-free keys and no newline in a ranked key or behind the first comma of a url parses exactly if the counts are below 2^64 and every port text, what follows that comma included, converts; a restore then gives back counts and ranking, the urls cut at their first comma, and the ports read from that text |
| BackupText.CommaFreeConvertsIff | src/MapManager.cpp:195-305 | without commas in the urls that is being storable |
| Decimal.StoulReadsText | src/MapManager.cpp:201-304 | a written count is read back if it fits 64 bits and refused otherwise |
| Decimal.StoiReadsText | src/MapManager.cpp:219-284 | a written port is read back if it is below 2^31 and refused otherwise |
| Decimal.StoiIs | src/messageserver.cpp:148 | of every text: blanks, one sign and the digits behind it make the number, anything else is invalid, and values outside an int are out of range |
| Decimal.StoulIs | src/MapManager.cpp:284 | the same for stoul, a negative number taken modulo 2^64 |
| Decimal.EveryTextHasParts | src/messageserver.cpp:148 | every text can be taken apart in that way |
| Decimal.TextIsDecimal | src/MapManager.cpp:159-160 | a number is written as digits of its value without a leading zero |
| Decimal.DecimalIsUnique | src/MapManager.cpp:159-160 | and there is only one such text |
| TruncatedBackup.TruncatedRestore | src/MapManager.cpp:266-311 | files cut anywhere restore with success to exactly their complete records: the first keys, the lowest pairs |
| TruncatedBackup.TruncatedRestoreIsExactIff | src/MapManager.cpp:266-311 | that is the saved state exactly if neither file was cut |
| TruncatedBackup.TruncatedRestoreIsValidIff | src/MapManager.cpp:266-311 | that is a valid index exactly if the surviving pairs are those of the surviving keys, or the ranking file is whole and all its keys survive |
| MessageQueue.QueueIsFifo | src/ThreadedMessageQueue.cpp:27-90 | in every interleaving, popped then drained then queued messages are the accepted ones in order, and the consumer's state is the fold of the consumed ones |
| Delivery.StoredIsLastSent | src/ThreadedMessageQueue.cpp:53-58 | in every interleaving a key is stored exactly if an add message with it was consumed, under the url and number of the last one, with the number of all of them |
| Delivery.PayloadIsStored | src/messageserver.cpp:57-94 | for a key that the server sent last in a payload, stored are what follows the first comma of that payload, and port 0 |
| Delivery.SizeIsLastSent | src/ThreadedMessageQueue.cpp:60-63 | in every interleaving the report size is that of the last size message consumed, clipped to the maximum |
| Delivery.PushWhileStoppedIsLost | src/ThreadedMessageQueue.cpp:82-90 | a message pushed while the queue is stopped is never accepted and never deleted, whatever happens later |
| Delivery.PushWhileRunningIsAccepted | src/ThreadedMessageQueue.cpp:82-90 | one pushed while it runs is enqueued |
| Delivery.StopMessageEndsLoop | src/ThreadedMessageQueue.cpp:65-67 | a stop message ends the worker's loop and reaches nobody else |
| Delivery.StartedQueueRuns | src/ThreadedMessageQueue.cpp:27-44 | a start sets the worker going; with nothing queued its turns change nothing |
| Delivery.OwnedAreAddsAndSizes | src/ThreadedMessageQueue.cpp:53-71 | the worker deletes exactly the add and size messages |
| MessageQueue.EachMessageDeletedOnce | src/ThreadedMessageQueue.cpp:15-90 | no message is deleted twice or touched after deletion; after the destructor every accepted add or size message was deleted exactly once |
| MessageQueue.ShutdownDeletesAll | src/ThreadedMessageQueue.cpp:15-80 | from any interleaving that leaves the queue alive without a push in flight, wherever the worker is, stop, join and the destructor come to an end, and every owned message ever accepted has then been deleted exactly once |
| MessageQueue.TurnConsumesFront | src/ThreadedMessageQueue.cpp:38-72 | one turn of the worker consumes exactly the front message and shortens the queue by one |
| MessageQueue.TurnsDrain | src/ThreadedMessageQueue.cpp:36-73 | without a stop message n turns drain a queue of n messages |
| MessageQueue.ScheduleIndependence | src/ThreadedMessageQueue.cpp:36-90 | any two draining interleavings that accepted the same keys equally often end with the same counts, and with the same reported counts if the report sizes agree |
| MessageQueue.KeyTrafficIndependence | src/ThreadedMessageQueue.cpp:36-90 | with key traffic only the reported counts agree outright |
| ThreadedQueue.PoppedEndsAtFirstStop | src/ThreadedMessageQueue.cpp:38-67 | the worker leaves its loop with the first stop message, or else takes everything |
| ThreadedQueue.ThreadedMessageQueue.Start | src/ThreadedMessageQueue.cpp:27-34 | refused without a consumer |
| ThreadedQueue.ThreadedMessageQueue.Push | src/ThreadedMessageQueue.cpp:82-90 | appends while running, drops otherwise |
| ThreadedQueue.ThreadedMessageQueue.PopOne | src/ThreadedMessageQueue.cpp:46-71 | an add message stores its second string and number under its first string with the count one up, a size message sets the clipped size, others leave the consumer alone; add and size messages are deleted; a stop message ends the loop |
| ThreadedQueue.ThreadedMessageQueue.RunLoop | src/ThreadedMessageQueue.cpp:36-73 | with any batches pushed between its turns, the loop takes the accepted messages up to the first stop message in order, the consumer's state is their fold, and exactly the owned ones are deleted |
| ThreadedQueue.ThreadedMessageQueue.DeleteRest | src/ThreadedMessageQueue.cpp:15-25 | the destructor deletes what is queued |
| Rotation.RotateIsShift | src/backupmanager.cpp:94-120 | the loop shifts the slots by one and overwrites nothing it has yet to move; only slot 9 can lose its file |
| Rotation.RotateKeepsOthers | src/backupmanager.cpp:94-120 | no other file is touched |
| Rotation.ApartIff | src/backupmanager.cpp:81-89 | the slots of two file names collide exactly if the names are equal or one is a numbered slot of the other |
| Rotation.TrackerNamesApart | src/tracker.cpp:65 | the names the tracker uses do not collide, and their slots are called keys_1.csv and so on |
| Rotation.BackupsKeepLog | src/backupmanager.cpp:17-33 | after t backups slot i of both files holds the snapshot taken i backups ago |
| Rotation.RotationLogIff | src/backupmanager.cpp:17-121 | every sequence of backups leaves such a log exactly if the two names do not collide |
| BackupManagers.BackupManager.SetFilenames | src/backupmanager.cpp:7-15 | names are base, dot, extension |
| BackupManagers.BackupManager.RenameFiles | src/backupmanager.cpp:73-121 | the string edits and the descending loop are the rotation of the value model |
| BackupManagers.BackupManager.BackupRequest | src/backupmanager.cpp:17-33 | rotates, then writes the two files of the current state |
| BackupManagers.BackupManager.RestoreRequest | src/backupmanager.cpp:35-49 | restores from the base files; false and no change when one is missing |
| MessageServer.PayloadSplits | src/messageserver.cpp:57-70 | a payload is its comma-free key part, and a comma and the rest if it has one |
| MessageServer.KeySent | src/messageserver.cpp:50-102 | an add message with number 0 whose first string has no comma; the payload is that string, or it, a comma and the second string; the number that the second string begins with is in the 16-bit field only; the reply names the key |
| MessageServer.PayloadDetermines | src/messageserver.cpp:57-94 | only one message carries a payload |
| MessageServer.SetTopHotKeys | src/messageserver.cpp:143-182 | a message is sent exactly for a number above zero, and each way out has its reply text; in particular a written number n goes out in the 16-bit field for 0 < n < 2^31, and 0, every written -n, larger numbers and blanks are refused with their replies |
| ServerReplies.GetTopHotKeys | src/messageserver.cpp:115-130 | the reply lists the first ten lines of the report as JSON |
| ServerReplies.ReplyIsWholeIff | README.md:101 | it has a line for each of the min(base, keys) keys exactly if these are ten at most and the ranking has them |
| MessageServer.SizeRequestEffect | src/messageserver.cpp:163-174 | an accepted request sets min(n, max) exactly if n fits 16 bits or its low bits reach the maximum; multiples of 65536 empty the report |
| LockProtocol.EveryRunIsAtomic | src/MapManager.cpp:36-364 | in every interleaving of any threads one thread is inside at a time, every reply is that of the index after a number of writes reached between the begin and the end of the call, the writes are in real-time order, and every purge among them cuts to a length clipped to the sizes of some moment between its begin and its write |
| LockProtocol.AnswersAreTruthful | src/MapManager.cpp:122-231 | so every report lists the highest pairs from the top, every hot answer says whether the pair of the stored count (in a valid index: the key) is ranked, and every dump is the two maps, of such an index |
| LockProtocol.CallsAreAtomicIff | src/MapManager.cpp:313-320 | the index goes through the states of the calls exactly if every purge was clipped to a length that cuts as one read under the mutex; the replies are then those of the calls |
| LockProtocol.AtomicWithoutResize | src/MapManager.cpp:105-120 | that is so in every interleaving in which purges and size changes do not come together |
| LockProtocol.FailsIff | src/MapManager.cpp:260-311 | a restore leaves without completing exactly if a complete record of its files does not convert, whatever the index |
| Clipping.OriginalIff | src/MapManager.cpp:313-352 | a run with clipped purges is the run of the calls, after every number of writes, exactly if every purge was clipped right |
| StaleClip.NoOrderExplains | src/MapManager.cpp:313-320 | in every valid index of two ranked keys and report size 0: two reports around a stale purge that no order of the two writes explains |
| Blocking.FreeMutexMeansFlagDownIff | src/MapManager.cpp:40-41 | the flag is down whenever the mutex is free, in every interleaving of the allowed operations, exactly if none of them is a restore of files with a record that does not convert |
| Blocking.ReadersNeverBlockIff | src/MapManager.cpp:124-125 | no reader ever blocks on the condition variable, in any interleaving of the allowed operations, exactly if there is no reader or no restore of files with a record that does not convert |
| Blocking.WokenReaderReads | src/MapManager.cpp:124-125 | a blocked reader woken when the flag is down and the mutex free reads the index as it is |
| Blocking.OwnBackupsNeverBlockIff | src/MapManager.cpp:195-311 | if only the program's own backups are restored, of states that are read back record by record, and there are readers, none ever blocks exactly if in each state the counts are below 2^64 and the port texts, what follows the first comma of a url included, convert |
| OwnRestores.OwnBackupRestoresIff | src/MapManager.cpp:195-305 | after any payloads that keep to their lines, in any interleaving of the queue, a restore of the tracker's own backup completes exactly if for every key what follows the first comma of the url part of its last message begins with an int; it then gives back all counts and the ranking, the urls cut at that comma, and the ports behind it |
| OwnRestores.OwnRestoreBlocksIff | src/MapManager.cpp:124-125 | and exactly then no reader blocks when the tracker restores its own backup |
| OwnRestores.RestoreMendsRecord | src/messageserver.cpp:57-90 | a payload key,url,port is stored with the port inside the url and port 0; backup and restore turn it into the url and the port |
| OwnRestores.NegativePortWraps | src/MapManager.cpp:284 | a negative number -n behind the url comes back as port 2^32 - n, which the next restore refuses |
| OpenFiles.RestoreFindsLastIff | src/MapManager.cpp:175-258 | with one backup at a time a restore at any moment completes, and gives back the last dump exactly if no backup has emptied a file that held anything |
| OpenFiles.DumpIsWholeIff | src/MapManager.cpp:175-231 | a dump among overlapping backups leaves its own text in a file, and behind it what lay there beyond its length; so the file is whole exactly if it found nothing longer |
| OpenFiles.OpenBackupEmptiesRestore | src/MapManager.cpp:243-258 | a restore while a backup has both files open empties the manager, with success |
| OpenFiles.ShorterDumpIsLost | src/MapManager.cpp:175-231 | a dump of an emptied manager over one made since it opened its files is lost |
| EndToEnd.ServerStateStorableIff | src/messageserver.cpp:50-102 | a state reached from payloads through the queue, in any interleaving, can be backed up exactly if no stored url has a comma and no ranked key a newline |
| EndToEnd.CleanTrafficRoundTrips | src/messageserver.cpp:50-102 | with payloads of at most one comma and no newline before it, every reachable state survives backup and restore |
| EndToEnd.SlotRestoresState | src/backupmanager.cpp:17-49 | after any backups the files of slot i restore the state of i backups ago, if it was storable |
| Instances.NarrowedBelowBase | src/MapManager.cpp:19-28 | the arguments (10, 65536) give a maximum of 0 below the report size 10 |
| Instances.MaximumOfZero | src/MapManager.cpp:131-137 | the arguments (65532, 0) give a maximum of 0, and after one add the hot-key test misses the count |
| Instances.ReportTooShort | src/MapManager.cpp:148-164 | with (10, 65536) the report after one add lacks the key |
| Instances.HotNotReported | src/MapManager.cpp:122-164 | with a report size of 0 a key is hot and not reported |
| Instances.PurgeBreaksIndex | src/MapManager.cpp:313-352 | one add and a purge to 0 break the index, and a purge to 1 is then undefined |
| Instances.RoundTripFails | src/MapManager.cpp:195-305 | one add with a comma in the key or url, a newline in the key or a port of 2^31 gives a state that does not survive backup and restore |
| Instances.RestoredElsewhereFails | src/MapManager.cpp:234-311 | a backup of a manager with maximum 0 is no valid index in one with maximum 4 |
| Instances.CutToNothing | src/MapManager.cpp:266-311 | two empty files restore to a valid index, an empty key file with a whole ranking file does not |
| Instances.SlotsCollide | src/backupmanager.cpp:81-89 | a_1.csv is slot 1 of a.csv, and this pair of names loses backups |
| Instances.OwnBackupBlocksReader | src/MapManager.cpp:124-125 | one add with a port of 2^31, or the payload k,u,x: its backup, its restore, and then any reader blocks |
| Instances.PurgeIsNotAtomic | src/MapManager.cpp:313-320 | two adds to a manager of report size 0, a purge, a size change and two reports that no order of the two explains |
| Examples.FilesOfThreeAdds | src/MapManager.cpp:195-231 | after adding b with url u and port 80 once and a twice the files are a,2,,0 / b,1,u,80 and 1,b / 2,a |
| Examples.ReportOfThreeAdds | src/MapManager.cpp:148-164 | the report then lists a with 2 and b with 1 |
| Examples.ReplyOfThreeAdds | src/messageserver.cpp:115-130 | and the reply is that text as JSON |
| Examples.PayloadsAsMessages | src/messageserver.cpp:57-94 | the messages of abc, k,u and k,80,x |

## Left out

- HTTP server, listeners, request bodies and HTML replies (src/web, include/web): network plumbing.
- Clients, `main`, signals, restart codes, the Makefile and the repository's own test programs.
- `Timer`: a backup is a step that may happen at any time.
- File opening and writing errors of a backup: files are strings and always written.
- Logging, `Verbosity`, and the replies of isHotKey, totalKeys and the time command: formatting.
- The lock-free queue and the balanced trees inside: only their sequential behaviour is used.
- Data races on `m_running`, on the unlocked size getters and on the sizes that `purge` reads without the mutex:
  reads and writes are atomic steps, and the two reads of the report size in `purge` are one.
- Wrap-around of the 64-bit counter: counts are unbounded naturals; the storable states have counts below 2^64.
- Misuse that ends the program: starting a second worker before the first is joined, and destroying the queue
  with a worker running or a push in flight. These steps are not enabled.
- ThreadedQueue.ThreadedMessageQueue.RunLoop: producers push between turns, whole batches at a time; the finer
  interleavings, with a push checked and not yet done, are those of `MessageQueue`.
- Manager.MapManager.Purge: is not modelled past the erase of the pair that `rend()` refers to, after which the
  source compares and moves an invalid iterator; `PurgeIsDefined` is the absence of that step, and holds in every
  valid index.
- Restarts.RestartIsTransparent: says nothing of the report size after a restart, which a backup does not save.
- MessageQueue.EachMessageDeletedOnce: claims nothing for messages that were pushed while not running or popped
  as stop or unknown messages, because the code never deletes them.
- LockProtocol.CallsAreAtomicIff: claims nothing for runs with a purge whose loop, with the clipped or with the
  current length, is undefined.
- OwnRestores.OwnBackupRestoresIff: payloads with a newline in the key or behind a second comma are left out, because
  such records run into the next ones; for these `RestoreCompletesIff` has the condition on the text.
- OpenFiles.RestoreFindsLastIff: the two file names stay the same files; the renaming that `BackupManager` does
  before it opens them is in `Rotation`, for backups that do not overlap.
- Blocking.ReadersNeverBlockIff: does not follow a reader further once it blocks; who is woken by
  `notify_one` after a failed restore is not modelled.
