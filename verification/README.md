# cardiag firmware: verified models

The firmware of the cardiag CAN logger records a car's bus into files on a
LittleFS partition, polls OBD PIDs by a plan the hub sends it, reads a trip
bookend from the ECUs, and hands everything to the hub. This project models the
parts of it whose correctness tests cannot settle, and proves what they
promise:

- **The poll plan.** A JSON reader in two passes, a canonical printer, an NVS
  blob and a scheduler on wrapping time (`Json`, `JsonLemmas`, `PlanContract`,
  `PlanParser`, `PlanReader`, `PlanTheorems`, `PlanMeaning`, `PlanReasons`,
  `PlanCodec`, `PlanBlob`, `PollSched`, `PollRuns`).
- **The file store.** The growing index, the boot scan, the four-phase
  retention, the crash-ordered close and removal with the persistent loss
  record, the file-count cap, tracked usage (`FsIndex`, `ScanOrder`,
  `Retention`, `RetentionLoop`, `FileStore`, `FileStoreRuns`, `FileStoreOps`,
  `FileCap`, `FsUsage`).
- **The change log.** A lock-free ring, producer and consumer one load or store
  at a time, the drain that moves its rows to flash, and a reader of the files
  (`SpscRing`, `SpscRuns`, `ChangeLog`, `ChangeDrain`, `ChangeCsv`).
- **The trip bookend.** ISO-TP reassembly, the time-budgeted sequencer, the
  reply parsers, the record, the frames on the bus (`IsoTp`, `Bookend`,
  `BookendRuns`, `BookendBus`, `BookendLoop`, `BookendRecord`).
- **The clock.** Civil dates and day counts, the RTC's BCD registers
  (`Calendar`).
- **Small kernels.** The exclusive-time profiler (`FsProf`), the PEM decoder
  (`Pem`), the credential commit (`CredCommit`, `CredMixture`).

Each file that changes state in place is a class or a method over an array,
proved equal to functions on values; the properties are lemmas about those
functions and about whole runs of them. `Words` holds the machine words and
their wrap-around, `Decimals` decimal and hexadecimal text.

Bytes of text are `char`. NVS and LittleFS are maps whose single operations
are atomic. A run is a sequence of steps chosen freely: every interleaving,
every failing write and every power cut is one of them.

Where the code and its documentation differ, the code is modelled:

- The plan reader takes a backslash before a NUL byte as an escape (`strchr`
  finds the terminator, firmware/src/pollplan.cpp:59). `RfcIffNoNul` says
  exactly which texts this admits beyond RFC 8259: those that hold a NUL.
- A repeated top-level `entries` array is not refused; the lists are
  concatenated (firmware/src/pollplan.cpp:204-206). `ContractSound` and
  `ContractComplete` are about the concatenation.
- "A .log without a .meta must be impossible" (firmware/src/filestore.cpp:587)
  holds exactly for the files whose .meta could be opened; `LogsHaveSidecars`
  says so both ways and `BareLogExists` gives the run that breaks it.
- "Never a half-valid set" (firmware/src/creds.cpp:16-20) holds of one commit,
  cut anywhere. A commit that follows an interrupted one can leave a mixture of
  the set before the interrupted commit and the set after it;
  `MixtureFromIncomplete` gives a run. Wherever the first commit is cut, no
  mixture is left if and only if the second keeps at most one field that the
  first was to change (`NoMixtureIff`); `MixtureIff` says the same of the
  commits with their pair check.

## Model

| member | source | states |
|---|---|---|
| JsonLemmas.EmitOfParse | firmware/src/pollplan.cpp:120-153 | soundness of the syntax walk: what it accepts, and where it stops, is the text of a well-formed tree at most 16 deep, followed by the rest |
| JsonLemmas.ParseOfEmit | firmware/src/pollplan.cpp:120-153 | completeness: the text of every well-formed tree is accepted, wherever it stands, and read as that tree |
| JsonLemmas.QuotedOf | firmware/src/pollplan.cpp:42-74 | every string of the grammar is accepted up to its closing quote |
| JsonLemmas.QuotedBack | firmware/src/pollplan.cpp:42-74 | an accepted string is one of the grammar |
| JsonLemmas.NumberOf | firmware/src/pollplan.cpp:78-109 | every number of section 6 of RFC 8259 is accepted whole |
| JsonLemmas.NumberBack | firmware/src/pollplan.cpp:78-109 | an accepted number is one of that grammar |
| PlanParser.Cursor.Ws | firmware/src/pollplan.cpp:18-22 | the cursor moves over white space and nothing else, inside the text |
| PlanParser.Cursor.Peek | firmware/src/pollplan.cpp:24-27 | whether the next character after white space is the given one |
| PlanParser.Cursor.Eat | firmware/src/pollplan.cpp:29-33 | takes that character, or only the white space before another |
| PlanParser.Cursor.Jstr | firmware/src/pollplan.cpp:42-74 | the cursor ends where the grammar's string ends; the copy is the string when it fits without escapes, and fits is false otherwise |
| PlanParser.Cursor.Jnum | firmware/src/pollplan.cpp:78-109 | the cursor ends where the number ends; integer and value as written, saturated |
| PlanParser.Cursor.Jlit | firmware/src/pollplan.cpp:111-117 | takes exactly the literal |
| PlanParser.Cursor.Jskip | firmware/src/pollplan.cpp:120-153 | the walk in place agrees with the grammar's reading function, in result, cursor and depth, and never leaves the text |
| PlanParser.Cursor.Jint | firmware/src/pollplan.cpp:161-168 | an integer is read, or the cursor is put back |
| PlanParser.SaturationIsHarmless | firmware/src/pollplan.cpp:87-90 | a saturated value is exact, or it and the true value are both at least 2^40: no out-of-range number becomes an in-range one |
| PlanTheorems.AcceptedTextIsTree | firmware/src/pollplan.cpp:180-186 | pass 1 accepts exactly the texts of well-formed trees with white space behind, and there is one tree |
| PlanTheorems.RfcIffNoNul | firmware/src/pollplan.cpp:54-61 | RFC 8259 accepts a text if and only if pass 1 does and the text holds no NUL |
| PlanTheorems.NulEscapeAccepted | firmware/src/pollplan.cpp:59 | the concrete text: a string of backslash and NUL is accepted |
| PlanTheorems.AlphabetIs | firmware/src/pollplan.cpp:18-61 | white space, hexadecimal digits and short escapes by the code points of RFC 8259, and NUL |
| PlanReasons.MalformedIff | firmware/src/pollplan.cpp:176-186 | 400 exactly if the text is longer than 4096 bytes or is no JSON text of at most 16 levels |
| PlanReasons.ReasonHolds | firmware/src/pollplan.cpp:190-269 | every reason of a 422 names a fault that the body has, field by field and entry by entry |
| PlanReasons.IntMeans | firmware/src/pollplan.cpp:78-109 | a number is an integer exactly if it is written without fraction and exponent, and then of that value |
| PlanReader.PlanBuffer.Add | firmware/src/pollplan.cpp:241-251 | insertion by shifting equals sorted insertion; an equal key is refused and changes nothing |
| PlanReader.ReadEntryList | firmware/src/pollplan.cpp:208-255 | the entry loop of pass 2 gives what the contract says of the array, plan or error, with every unchecked step succeeding |
| PlanReader.ReadTopList | firmware/src/pollplan.cpp:194-263 | the member loop of pass 2 gives what the contract says of the object |
| PlanReader.ReadBody | firmware/src/pollplan.cpp:190-269 | pass 2 never answers MALFORMED, and answers exactly what the contract says of the tree pass 1 found |
| PlanReader.PollPlanParse | firmware/src/pollplan.cpp:176-270 | the answer to every byte string: MALFORMED, with an empty plan, exactly if it is too long or no tree, otherwise the contract's answer and plan |
| PlanMeaning.EntryRead | firmware/src/pollplan.cpp:210-241 | an entry object is accepted as e if and only if it denotes e: three fields once each, integers, in range |
| PlanMeaning.InsertAllMeaning | firmware/src/pollplan.cpp:242-251 | inserting a list succeeds if and only if no key occurs twice, and then gives its sorted permutation |
| PlanMeaning.ContractSound | firmware/src/pollplan.cpp:191-269 | an accepted body lists at most 32 entries with distinct keys, and the plan is their sorted form |
| PlanMeaning.ContractComplete | firmware/src/pollplan.cpp:191-269 | every such body is accepted with that plan |
| PlanMeaning.SortedUnique | firmware/src/pollplan.cpp:170-174 | a multiset of entries has one sorted form |
| PlanMeaning.OrderDoesNotMatter | firmware/src/pollplan.cpp:242-251 | two bodies listing the same entries in any order, spacing and split are answered with the same plan |
| PlanCodec.PollPlanCanonical | firmware/src/pollplan.cpp:283-298 | prints the canonical text, or returns 0 exactly if it does not fit the buffer |
| PlanCodec.PlanEmit | firmware/src/pollplan.cpp:283-298 | the printed text is the text of a syntax tree |
| PlanCodec.PlanTreeOk | firmware/src/pollplan.cpp:283-298 | that tree is well formed, three deep, and lists the plan |
| PlanCodec.CanonLength | firmware/src/pollplan.cpp:306-307 | every valid plan prints within 1273 bytes, below the 1536 of the buffer |
| PlanCodec.CanonicalRoundTrip | firmware/src/pollplan.cpp:176-298 | parsing the canonical text of any valid plan gives the plan back |
| PlanCodec.CanonicalInjective | firmware/src/pollplan.cpp:300-315 | valid plans with one canonical text are one plan, so the hashed text identifies it |
| PlanCodec.SharedVector | firmware/test/test_pollplan/test_pollplan.cpp:20-26 | the canonical text of the plan that the hub's tests share |
| PlanBlob.PlanValid | firmware/src/pollplan.cpp:272-281 | comparing neighbours decides sorted and unique for all pairs |
| PlanBlob.PollPlanEncode | firmware/src/pollplan.cpp:321-333 | writes the blob that decodes to the plan, or nothing and 0 |
| PlanBlob.PollPlanDecode | firmware/src/pollplan.cpp:335-350 | accepts exactly the blobs of valid plans |
| PlanBlob.DecodesMeans | firmware/src/pollplan.cpp:321-350 | the blob byte by byte: version 1, the count, then mode, PID and period of each entry, lowest byte first |
| PlanBlob.DecodesUnique | firmware/src/pollplan.cpp:339-347 | a blob has one plan |
| PlanBlob.BlobUnique | firmware/src/pollplan.cpp:321-333 | a plan has one blob: decoding and encoding back is the identity |
| PollSched.BackoffDoubles | firmware/src/pollplan.cpp:434-439 | back-off is the period before any miss, and each miss doubles it up to the larger of period and maximum |
| PollSched.PollBackoffMs | firmware/src/pollplan.cpp:434-439 | the shifting loop gives min(period * 2^misses, max(maximum, period)), for a period of 0 too |
| PollSched.Scheduler.Pick | firmware/src/pollplan.cpp:368-379 | none while one is in flight, within the gap or nothing is due; otherwise the most overdue, the lowest index among equals |
| PollSched.Scheduler.NoteSent | firmware/src/pollplan.cpp:381-388 | the whole effect of a send |
| PollSched.Scheduler.NoteTxFailed | firmware/src/pollplan.cpp:390-395 | the whole effect of a refused send |
| PollSched.ClassifyMeans | firmware/src/pollplan.cpp:397-421 | a frame is a reply with these bytes exactly if it is length, mode echo, PID echo, the at most five bytes and anything behind; a long reply exactly if it is a First Frame with both echoes; and ignored otherwise |
| PollSched.FrameMeans | firmware/src/pollplan.cpp:397-432 | so it is for the request in flight; an ignored frame changes nothing |
| PollSched.Scheduler.NoteFrame | firmware/src/pollplan.cpp:397-432 | the whole effect of a frame |
| PollSched.Scheduler.NoteTimeout | firmware/src/pollplan.cpp:441-452 | the whole effect of a timeout check |
| PollRuns.InitOk | firmware/src/pollplan.cpp:361-366 | a new scheduler starts in the invariant of the runs, its counters balanced |
| PollRuns.StepOk | firmware/src/pollplan.cpp:361-452 | the wrapped scheduler follows a scheduler on true time, event by event |
| PollRuns.TrueLateness | firmware/src/pollplan.cpp:357-375 | the signed wrapped difference is the true lateness while within 2^31 ms |
| PollRuns.PickMeans | firmware/src/pollplan.cpp:368-379 | on true time: the entry that has been due longest, the first of equals, exactly when nothing is in flight, the gap has passed and something is due |
| PollRuns.BoundedBypass | firmware/src/pollplan.cpp:368-395 | in every run: once an entry is due, every other entry is attempted at most once before it |
| PollRuns.SendsApart | firmware/src/pollplan.cpp:368-388 | in every run: any two sends are at least the gap apart, and none is made while one is in flight |
| PollRuns.CountersBalance | firmware/src/pollplan.cpp:381-452 | in every run, for every entry: requests are replies, multi-frame replies and timeouts, and the one in flight, modulo 2^32 |
| PollRuns.CountersTell | firmware/src/pollplan.cpp:381-452 | in every run each counter is the number of sends, refusals, replies, long replies and timeouts of its entry modulo 2^32, the misses are the timeouts in a row up to 16, the latency is that of the last answer |
| PollRuns.TimeoutBacksOff | firmware/src/pollplan.cpp:434-452 | after a timeout the entry waits its period doubled once per timeout in a row, up to 16, within the maximum |
| PollRuns.AnyOkMeans | firmware/src/pollplan.cpp:413-430 | the poller knows that the car answers exactly if a frame did |
| FsIndex.FsTable.FindEntry | firmware/src/fsindex.cpp:50-55 | the first entry with that index, or none |
| FsIndex.FsTable.Grow | firmware/src/fsindex.cpp:57-69 | doubles the room from 32 up to 60000 if memory allows, keeping the contents |
| FsIndex.FsTable.MakeRoom | firmware/src/fsindex.cpp:71-79 | room for one more, exactly while fewer than the largest capacity are held |
| FsIndex.LimitMeans | firmware/src/fsindex.cpp:57-69 | the largest capacity: no more than memory gives, and as much of it as doubling from 32 up to 60000 can use |
| FsIndex.FsTable.OldestEntry | firmware/src/fsindex.cpp:111-116 | the inactive entry of lowest index, the first of equals |
| FsIndex.FsTable.AddOrEvictEntry | firmware/src/fsindex.cpp:102-126 | replaces, appends, or gives the slot of the older of newcomer and oldest, and reports who lost |
| FsIndex.FsTable.FeedName | firmware/src/fsindex.cpp:128-169 | the effect of one directory name on table and scan counters, a .log over its .part included |
| FsIndex.FsTable.DropEntry | firmware/src/fsindex.cpp:96-100 | the later entries move down by one; a position past the end changes nothing |
| FsIndex.FsTable.Sort | firmware/src/fsindex.cpp:81-94 | insertion sort in place gives the sorted table |
| FsIndex.SortedIsOrdered | firmware/src/fsindex.cpp:81-94 | the sorted table is in index order and a permutation |
| FsIndex.Oldest | firmware/src/fsindex.cpp:111-116 | lowest inactive index, none if all are active |
| ScanOrder.ScanKeepsNewest | firmware/src/fsindex.cpp:128-169 | after any names in any order: the table holds the newest, every file without a slot was reported |
| ScanOrder.ScanKeepsLargest | firmware/src/fsindex.cpp:102-169 | with room for c, exactly the c largest distinct indices stay, each closed if and only if a .log was seen, and the reports are exactly the rest |
| ScanOrder.OrderDoesNotMatter | firmware/src/filestore.cpp:349-375 | the order of the directory does not matter to which files stay and which are reported |
| ScanOrder.OneIndex | firmware/src/filestore.cpp:349-393 | where the names of an index agree on kind and boot, the whole sorted index, closed flags included, is the same for every order |
| ScanOrder.StatsBalance | firmware/src/fsindex.cpp:128-169 | the scan counters add up: every name counted once, every data file in the index, a second name of its index, or reported evicted |
| ScanOrder.StatsTell | firmware/src/fsindex.cpp:128-146 | the counters of foreign names and sidecars are their numbers, and with nothing evicted the duplicates are the data files less the distinct indices |
| ScanOrder.NothingLost | firmware/src/filestore.cpp:349-375 | while the table can grow, every file on disk is in it and nothing is evicted |
| ScanOrder.ScanDir | firmware/src/filestore.cpp:349-393 | the loop over the directory gives that table, sorted, those reports and those counters |
| Retention.VictimLegit | firmware/src/fsindex.cpp:200-214 | the victim is the oldest acked entry; with none, the oldest raw or change log, then snapshot, then bookend |
| Retention.StuckMeansActive | firmware/src/fsindex.cpp:200-214 | no victim is found only when every entry is active |
| Retention.TierAVictimLegit | firmware/src/fsindex.cpp:216-230 | a Tier A eviction happens only when the true Tier A total exceeds its cap, acked first, oldest first |
| Retention.SumIsShare | firmware/src/fsindex.cpp:191-198 | the Tier A sum adds up the raw and change logs of known size, and nothing else |
| Retention.DropShare | firmware/src/fsindex.cpp:232-243 | an eviction takes the bytes of a raw or change log off that sum, and of no other file |
| Retention.ShareOnDisk | firmware/src/fsindex.cpp:191-198 | the sum never exceeds the bytes of raw and change logs on disk, and is them once every size is known |
| Retention.LeftoversKeep | firmware/src/fsindex.cpp:256-262 | the leftover phase keeps the contract and leaves no acked leftover unless out of budget |
| Retention.ByCountKeeps | firmware/src/fsindex.cpp:266-273 | the count phase keeps it and ends within the limit, out of budget, or with only active entries |
| Retention.ByTierAKeeps | firmware/src/fsindex.cpp:277-282 | the Tier A phase keeps it and ends with the raw and change bytes, modulo 2^32, within the cap, out of budget, or with only active raw and change logs |
| Retention.ByUsedKeeps | firmware/src/fsindex.cpp:285-290 | the used phase keeps it and ends within the limit, out of budget, or with only active entries |
| Retention.EnforceKeepsContract | firmware/src/fsindex.cpp:245-292 | on any ordered table and any limits: no active entry goes, at most the budget, order kept, each eviction as the deletion order demands and only over its limit; with neither more nor stuck the limits hold and no acked leftover remains |
| Retention.ShareEnforced | firmware/src/fsindex.cpp:245-292 | with every size known and less than 2^32 raw and change bytes, a finished call leaves at most the cap of them on disk, or only active ones |
| Retention.WrapHidesShare | firmware/src/fsindex.cpp:191-198 | two raw logs of 2^31 bytes each stay whatever the cap, because their sum wraps to 0 |
| Retention.PhasesInOrder | firmware/src/fsindex.cpp:245-292 | acked leftovers go first, then for the count, then for the Tier A share, then for the space in use |
| Retention.ChainSum | firmware/src/fsindex.cpp:232-243 | each eviction takes one entry and brings none in, and the Tier A sum never grows |
| RetentionLoop.FindVictim | firmware/src/fsindex.cpp:200-214 | the loops over the table find that victim |
| RetentionLoop.FindTierAVictim | firmware/src/fsindex.cpp:216-230 | the two passes find that victim |
| RetentionLoop.SumTierA | firmware/src/fsindex.cpp:191-198 | the loop gives the bytes of the hydrated raw and change logs modulo 2^32 |
| RetentionLoop.EvictAt | firmware/src/fsindex.cpp:232-243 | hydrate, remove and drop: remove is handed the entry with its size, read if it was not known, and exactly that entry leaves |
| RetentionLoop.EnforceRetention | firmware/src/fsindex.cpp:245-292 | the call in place: table, removals in order and both flags are those of the four phases |
| FileStoreRuns.StepKeeps | firmware/src/filestore.cpp:422-672 | every write, power cut, boot and request keeps the disk, index, loss and count invariants together |
| FileStoreRuns.RunKeeps | firmware/src/filestore.cpp:422-672 | so does every run of fewer than 2^31 files |
| FileStoreRuns.LogsHaveSidecars | firmware/src/filestore.cpp:587-601 | in every run: a .log has its complete .meta if and only if that .meta could be opened, and is not also a .part |
| FileStoreRuns.NoneBare | firmware/src/filestore.cpp:588-596 | while every .meta opens, no .log is without one |
| FileStoreRuns.BareLogExists | firmware/src/filestore.cpp:588-601 | the run that ends with a .log and no .meta |
| FileStoreRuns.LossRecordBounds | firmware/src/filestore.cpp:442-463 | in every run: per tier, recorded files and bytes never exceed unacked ones destroyed; files lag by at most the number of power cuts and the one being removed; the loss watermark never exceeds the record, which never wraps |
| FileStoreRuns.NoFileUnaccounted | firmware/src/filestore.cpp:349-393 | in every run, between operations: the index is exactly the disk, closed exactly the .log files, and every index ever taken is on disk, destroyed, freed or never became a file |
| FileStoreRuns.UnackedIsLost | firmware/src/filestore.cpp:488-504 | an eviction takes the data file off the disk, and is a loss, of its tier and its length there, exactly when its index is not acknowledged |
| FileStoreRuns.RecordIsUnheard | firmware/src/filestore.cpp:442-463 | recording a loss makes the record exceed what the hub acknowledged |
| FileStoreRuns.WarnSurvives | firmware/src/filestore.cpp:1140-1154 | warn stays set from a recorded loss until the hub acknowledges that many, across power cuts and boots |
| FileStoreRuns.WarnIff | firmware/src/filestore.cpp:1140-1154 | in every run: warn is set exactly at 70 percent of use or more, or while the record holds more lost files than were acknowledged |
| FileStoreRuns.NoLossNoWarning | firmware/src/filestore.cpp:1140-1154 | a store that destroyed no unacked file does not warn below 70 percent |
| FileStoreRuns.AckLossClears | firmware/src/filestore.cpp:1156-1171 | an acknowledgement clears the loss arm if and only if it covers the whole record |
| FileStoreRuns.MarksNeverFall | firmware/src/filestore.cpp:855-880 | index counter, both watermarks and the loss record never go back, across power cuts |
| FileStoreRuns.OnlyEvictionRemoves | firmware/src/filestore.cpp:422-435 | a file leaves the disk by its eviction and by nothing else |
| FileStoreOps.FollowsIsRun | firmware/src/filestore.cpp:544-672 | an operation is a run of single writes, so the run theorems hold at every point of it |
| FileStoreOps.Store.constructor | firmware/src/filestore.cpp:855-880 | boot: watermarks and loss record from NVS, the index from the disk |
| FileStoreOps.Store.NextIndex | firmware/src/filestore.cpp:544-549 | the counter is stored one up before the index is used |
| FileStoreOps.Store.CreateFile | firmware/src/filestore.cpp:636-658 | the .part appears and is tracked as active, or neither |
| FileStoreOps.Store.CreateMeta | firmware/src/filestore.cpp:587-596 | an empty .meta, or none and the close goes on |
| FileStoreOps.Store.FillMeta | firmware/src/filestore.cpp:589-593 | the .meta is complete, with the file's length |
| FileStoreOps.Store.RenamePart | firmware/src/filestore.cpp:598-616 | the .part becomes the .log and the entry closed |
| FileStoreOps.Store.RemoveDataFile | firmware/src/filestore.cpp:431-432 | an eviction takes the data file first |
| FileStoreOps.Store.RemoveMetaFile | firmware/src/filestore.cpp:433-434 | and its .meta next |
| FileStoreOps.Store.PutLostFiles | firmware/src/filestore.cpp:445-460 | the file count of the tier, in RAM and at once in NVS |
| FileStoreOps.Store.PutLostBytes | firmware/src/filestore.cpp:461-462 | the byte count of the tier |
| FileStoreOps.Store.OpenActive | firmware/src/filestore.cpp:629-671 | opening is: spend an index, create the file; the index is the counter's |
| FileStoreOps.Store.CloseActive | firmware/src/filestore.cpp:570-617 | closing is: .meta opened, filled, then the rename; the .log holds what the .part held |
| FileStoreOps.Store.Remove | firmware/src/filestore.cpp:488-504 | an eviction is: data, .meta, and for an unacked file both counters, then the entry |
| FileStoreOps.Store.AckThrough | firmware/src/filestore.cpp:1173-1182 | the watermark becomes the larger of old and new, in RAM then NVS |
| FileStoreOps.Store.AckLossThrough | firmware/src/filestore.cpp:1156-1171 | the loss watermark becomes the larger of old and the acknowledgement clamped to the record |
| FileCap.BootInv | firmware/src/filestore.cpp:349-393 | a boot starts in the invariant of the runs: the sorted index of the scan, nothing open |
| FileCap.PassKeeps | firmware/src/fsindex.cpp:245-292 | a retention pass leaves at most the limit, or eight fewer, or only active entries; no active entry goes |
| FileCap.StepKeeps | firmware/src/filestore.cpp:556-672 | opens, rotations, closes, writes and passes keep: ordered, unique, each open file tracked and active, nothing else active |
| FileCap.CapHolds | firmware/src/filestore.cpp:512-538 | in every run the index holds at most the larger of 96 and what it held: once at most 96, always |
| FileCap.BacklogDrains | firmware/src/filestore.cpp:1106-1111 | with nothing opened, a backlog of n is at the cap after ceil((n - 96) / 8) passes |
| FileCap.FewActive | firmware/src/filestore.cpp:743-752 | at most three entries are ever active |
| FileCap.OpenEntry | firmware/src/filestore.cpp:623-672 | retention with one slot reserved, tracking and sorting, in place |
| FileCap.CloseEntry | firmware/src/filestore.cpp:603-616 | the closed entry takes its own slot, in place |
| FsUsage.Blocks | firmware/include/fsusage.h:40-43 | no block for an inline file, otherwise the fewest blocks that hold the bytes |
| FsUsage.ResizeValue | firmware/include/fsusage.h:52-64 | a resize adds the blocks gained, clamped to 0 and the partition |
| FsUsage.TracksTheWalk | firmware/include/fsusage.h:45-64 | over every run of creations, writes in any pieces and removals, the tracked count is the boot measurement plus the blocks gained at every step if and only if that sum never passes the partition |
| FsUsage.Tracker.DataBlocks | firmware/include/fsusage.h:40-43 | the division in place |
| FsUsage.Tracker.SetMeasured | firmware/include/fsusage.h:45-49 | adopts a measurement |
| FsUsage.Tracker.ResizeFile | firmware/include/fsusage.h:52-64 | the resize in place, nothing before the first measurement |
| SpscRing.MaskIsMod | firmware/include/spscring.h:53 | bitwise and with a power of two less one is the remainder |
| SpscRing.SlotIsMod | firmware/include/spscring.h:53 | the slot of a wrapped index is the unwrapped index modulo the capacity |
| SpscRing.Pow2Floor | firmware/include/spscring.h:33-37 | the largest power of two not above n, 0 for 0 |
| SpscRing.Ring.Reserve | firmware/include/spscring.h:48-55 | a slot, or refusal exactly if the ring is full |
| SpscRing.Ring.Publish | firmware/include/spscring.h:58-61 | the head moves on by one, wrapping |
| SpscRing.Ring.Consume | firmware/include/spscring.h:76-82 | the tail moves on by the smaller of n and what is there |
| SpscRuns.NextInv | firmware/include/spscring.h:48-82 | every load and store of either side keeps: no unconsumed slot is overwritten, no unpublished one read |
| SpscRuns.ReadsAccepted | firmware/include/spscring.h:71-73 | the slot read holds the row accepted under its index, is published and is not being written |
| SpscRuns.Refines | firmware/include/spscring.h:48-82 | under every interleaving the ring is a bounded queue: publish appends where there is room, consume drops from the front, nothing else shows |
| SpscRuns.RefusedIffSeenFull | firmware/include/spscring.h:50-52 | a refusal happens exactly when the tail it loaded shows a full ring |
| SpscRuns.ReachFlashOnce | firmware/src/filestore.cpp:803-841 | in every interleaving of producer and drain, one load or store at a time, the cursor put back whenever a write fails: flash holds the first of the published rows, in order, none left out, repeated or torn, and the ring holds the rest |
| ChangeLog.RowLength | firmware/src/recorder.cpp:184-200 | every CSV row has at most 50 characters, so the 96-byte guard never clips one |
| ChangeLog.EmitRow | firmware/src/recorder.cpp:184-200 | the row, piece by piece, whole whenever more than the guard is left |
| ChangeLog.CsvChunk | firmware/src/recorder.cpp:225-246 | a chunk is the header if due and the next whole rows, inside the buffer, and the cursor says how far |
| ChangeDrain.ChunkRows | firmware/src/recorder.cpp:236-243 | a chunk holds exactly the rows between the two cursors, at least one if any is pending |
| ChangeDrain.DrainKeeps | firmware/src/filestore.cpp:803-841 | whatever fails, flash holds the accepted rows up to the cursor; without failures at least one more; with header writes succeeding each file has one header, on top |
| ChangeDrain.ExactlyOnce | firmware/src/filestore.cpp:803-841 | in every run of rows, drains, failures, rotations, closes and compactions the rows across the files are a prefix of the accepted rows |
| ChangeCsv.RowReads | firmware/src/recorder.cpp:184-200 | a row, split at its commas and read as decimal and hexadecimal numbers, gives back time, id, extended flag, length, changed mask and the first min(dlc, 8) bytes in order, the other columns blank |
| ChangeCsv.FileReads | firmware/src/recorder.cpp:225-246 | reading a file gives its records in order; a line of the thirteen column names is none |
| ChangeCsv.FlashReads | firmware/src/filestore.cpp:803-841 | reading the files, closed and open, gives the accepted records up to the cursor |
| ChangeCsv.FilesTellTheTruth | firmware/src/filestore.cpp:803-841 | so it is in every run of rows, drains, failures, rotations, closes and compactions |
| ChangeCsv.DrainerTellsTheTruth | firmware/src/filestore.cpp:803-841 | and of the text that the drain in place has written |
| ChangeDrain.FilesShort | firmware/src/filestore.cpp:714-718 | in every run no change file is longer than 65535 bytes, a header and a chunk |
| ChangeDrain.CompactMeans | firmware/src/filestore.cpp:832-840 | all drained rows are given back once they pass a quarter of the ring |
| ChangeDrain.Drainer.EnsureOpenFile | firmware/src/filestore.cpp:714-718 | rotates a full file, opens one if none is open |
| ChangeDrain.Drainer.WriteActive | firmware/src/filestore.cpp:676-689 | all the bytes or none |
| ChangeDrain.Drainer.DrainChangeLog | firmware/src/filestore.cpp:803-841 | one drain in place: file text, cursor and ring are those of the drain on values |
| ChangeDrain.Drainer.CompactRing | firmware/src/filestore.cpp:836-840 | drained rows are given back once they fill a quarter of the ring, the cursor moved with them |
| IsoTp.Feed | firmware/src/bookend.cpp:148-185 | whatever frame arrives, no byte leaves the buffer, and active means 6 <= len < total <= 160 |
| IsoTp.SingleMeans | firmware/src/bookend.cpp:151-157 | a Single Frame holds a message of 1 to 7 bytes, those behind its length, or is an error |
| IsoTp.FirstMeans | firmware/src/bookend.cpp:159-168 | a First Frame begins a message of 8 to 160 bytes and asks for Flow Control, or is an error |
| IsoTp.StrayMeans | firmware/src/bookend.cpp:170-173 | a Consecutive Frame nobody waits for is ignored, one out of sequence ends the message |
| IsoTp.OtherMeans | firmware/src/bookend.cpp:148-185 | Flow Control and unknown frames are ignored |
| IsoTp.Reassembles | firmware/src/bookend.cpp:148-185 | section 9.6 of ISO 15765-2:2016: from any state, the frames of any message of 1 to 160 bytes end in exactly that message; Flow Control is asked for once if and only if it is longer than 7; no error |
| IsoTp.LostFrameDetected | firmware/src/bookend.cpp:172 | a message that lost one Consecutive Frame is never handed out |
| IsoTp.NextFed | firmware/src/bookend.cpp:170-180 | a Consecutive Frame adds its part under sequence numbers modulo 16 |
| IsoTp.Receiver.FeedSingle | firmware/src/bookend.cpp:151-157 | Single Frame in place |
| IsoTp.Receiver.FeedFirst | firmware/src/bookend.cpp:159-168 | First Frame in place |
| IsoTp.Receiver.FeedConsecutive | firmware/src/bookend.cpp:170-180 | Consecutive Frame in place |
| IsoTp.Receiver.FeedFrame | firmware/src/bookend.cpp:148-185 | the receiver in place is the receiver on values |
| Bookend.NextMid | firmware/src/bookend.cpp:313-314 | the first advertised MID from there on that is no support page |
| BookendRuns.AdvanceKeeps | firmware/src/bookend.cpp:219-241 | an answered request leads to the next one of the walk |
| BookendRuns.LaunchKeeps | firmware/src/bookend.cpp:300-325 | the request loop sends the next request in order and in time, or finishes |
| BookendRuns.PollKeeps | firmware/src/bookend.cpp:265-325 | a poll at any time keeps the order of the walk and the meaning of the flags |
| BookendRuns.HandleKeeps | firmware/src/bookend.cpp:327-347 | a message only adds to what was read and what is advertised |
| BookendRuns.FrameKeeps | firmware/src/bookend.cpp:349-359 | so does any frame from any responder |
| BookendRuns.TxRefusedKeeps | firmware/src/bookend.cpp:361-366 | a refused transmission ends the sequence as truncated |
| BookendRuns.RequestsInOrder | firmware/src/bookend.cpp:265-325 | in every run: 01/01, 03, 07, support pages, advertised MIDs strictly ascending with mid mod 32 not 0, none with less than minStartMs left, at most 259 |
| BookendRuns.CompleteMeansAll | firmware/src/bookend.cpp:208-216 | COMPLETE: four reads done, every advertised MID and every advertised support page asked for, not truncated |
| BookendRuns.NoResponseMeansSilence | firmware/src/bookend.cpp:211 | NO_RESPONSE if and only if ECU 0 never answered 01/01; otherwise the record holds its first answer |
| BookendRuns.DeadlineFixed | firmware/src/bookend.cpp:199-206 | deadline and timing never move |
| BookendRuns.PastIsTooLate | firmware/src/bookend.cpp:302 | no time past the deadline is early enough to ask again, if and only if 0 < minStartMs < 2^31 |
| BookendRuns.NinePollsFinish | firmware/src/bookend.cpp:269-306 | from any point, nine polls past the deadline and too late to ask again, without frames, finish |
| BookendBus.EveryPoll | firmware/src/bookend.cpp:243-325 | at every point of every run: while a First Frame waits, a poll sends 30 00 00 padded with 55 to 0x7E0 + (f - 0x7E8) for one responder f that waits; otherwise at most an 8-byte request to 0x7DF, with minStartMs left, and after the first only once quietMs passed without a frame and no message half received, or reqMaxMs since the request |
| BookendBus.EachOnce | firmware/src/bookend.cpp:265-279 | as many polls as First Frames wait answer each of them, and each once |
| BookendBus.FeedBegins | firmware/src/bookend.cpp:159-168 | Flow Control is asked for exactly by a First Frame of 8 to 160 bytes |
| BookendBus.TxRefusedKeeps | firmware/src/bookend.cpp:361-366 | a refused transmission ends the sequence, truncated and not complete |
| BookendBus.WhyCutShort | firmware/src/bookend.cpp:208-216 | a finished record is truncated only for a late poll, a refused frame or a full list, and is complete without any of these |
| BookendLoop.ParseDtcList | firmware/src/bookend.cpp:94-113 | the parsing loop appends the non-zero codes that fit, and says whether some did not |
| BookendLoop.ParseMonitorList | firmware/src/bookend.cpp:127-142 | the parsing loop appends the whole records that fit |
| BookendLoop.ParseSupport | firmware/src/bookend.cpp:115-125 | the parsing loop adds exactly the advertised MIDs |
| BookendLoop.Sequencer.constructor | firmware/src/bookend.cpp:199-206 | a new sequence |
| BookendLoop.Sequencer.Finish | firmware/src/bookend.cpp:208-216 | the flags in place |
| BookendLoop.Sequencer.StepDone | firmware/src/bookend.cpp:219-241 | the next step in place |
| BookendLoop.Sequencer.Ask | firmware/src/bookend.cpp:243-263 | a request in place: bytes, times, receivers cleared |
| BookendLoop.Sequencer.TakeFlowControl | firmware/src/bookend.cpp:269-279 | the lowest responder owed a Flow Control |
| BookendLoop.Sequencer.StartNext | firmware/src/bookend.cpp:300-325 | the request loop in place |
| BookendLoop.Sequencer.PollAt | firmware/src/bookend.cpp:265-325 | a poll in place is the poll on values |
| BookendLoop.Sequencer.HandleMessage | firmware/src/bookend.cpp:327-347 | a message in place |
| BookendLoop.Sequencer.OnFrameAt | firmware/src/bookend.cpp:349-359 | a frame in place |
| BookendLoop.Sequencer.TxFailedNow | firmware/src/bookend.cpp:361-366 | a refused transmission in place |
| BookendRecord.RecordRoundTrip | firmware/src/bookend.cpp:26-71 | every record the logger can make is read back to its data, device, boot and time |
| BookendRecord.EncodeRecord | firmware/src/bookend.cpp:26-71 | writes the whole record and nothing behind it, or returns 0 exactly if it does not fit |
| BookendRecord.DtcReplyRead | firmware/src/bookend.cpp:94-113 | a reply built from codes adds its non-zero codes in order up to the cap, and truncated is set if and only if some did not fit |
| BookendRecord.SupportReplyRead | firmware/src/bookend.cpp:115-125 | a support page built from a set of MIDs is read to exactly that set, within its range |
| BookendRecord.MonitorReplyRead | firmware/src/bookend.cpp:127-142 | a reply built from monitor results adds them in order with their ECU up to the cap, and truncated is set if and only if some did not fit |
| BookendRecord.EngineAnswerRead | firmware/src/bookend.cpp:88-92 | the answer to 01/01 is 41 01 and four bytes, whatever follows, and nothing else |
| BookendRecord.RepliesTaken | firmware/src/bookend.cpp:327-347 | in each step of the walk the reply to its request adds its codes, results or MIDs to their own list and to nothing else |
| BookendRecord.OthersIgnored | firmware/src/bookend.cpp:327-329 | a message that answers another mode changes nothing |
| BookendRecord.FlagBits | firmware/include/bookend.h:45-47 | bit 0 complete, bit 1 truncated, bit 2 no response |
| Calendar.DaysOf | firmware/include/rtc8563.h:64-71 | with signed division and unsigned wrap as written, the day number is a sum of year, month and day counts |
| Calendar.TomorrowIsNext | firmware/include/rtc8563.h:64-90 | the day number grows by one from each date to the next, by the month lengths: it counts days |
| Calendar.Epoch | firmware/include/rtc8563.h:63-71 | 1970-01-01 is day 0 |
| Calendar.CivilThenDays | firmware/include/rtc8563.h:64-84 | every day number, negative ones included, has a valid date with that day number |
| Calendar.DaysThenCivil | firmware/include/rtc8563.h:64-84 | every valid date is the date of its day number |
| Calendar.NextDayIsTomorrow | firmware/include/rtc8563.h:73-90 | the date of the next day is the next date |
| Calendar.BcdRoundTrip | firmware/include/rtc8563.h:54-61 | BCD of 0 to 99 and back, inside the register masks |
| Calendar.Encode | firmware/include/rtc8563.h:119-135 | fills the registers, or leaves them alone outside 2000 to 2099 |
| Calendar.SettableSeconds | firmware/include/rtc8563.h:116-126 | which seconds those are |
| Calendar.ClockRoundTrip | firmware/include/rtc8563.h:96-135 | setting the clock and reading it gives back every second of 2000 to 2099 from minYear on |
| Calendar.DecodeMeans | firmware/include/rtc8563.h:96-117 | the answer to any seven bytes: voltage low exactly if bit 7 of the first is set; else bad century exactly if bit 7 of the sixth is; else the second that the registers spell in BCD exactly if they spell a date and time of 2000 to 2099 from minYear on; too early exactly if they spell an earlier one; bad field otherwise |
| Calendar.WeekdayIs | firmware/include/rtc8563.h:131 | the weekday register: 2000-01-01 is a Saturday and each day moves on by one of seven |
| FsProf.EnterKeeps | firmware/include/fsprof.h:69-79 | entering keeps the 32-bit arrays equal to the pass on a clock that does not wrap |
| FsProf.ExitKeeps | firmware/include/fsprof.h:81-90 | so does leaving, over-deep frames included |
| FsProf.TimeIsConserved | firmware/include/fsprof.h:62-90 | at every point: the booked times add up to the closed top-level time and the nested time of the open frames |
| FsProf.TimeIsExclusive | firmware/include/fsprof.h:62-90 | at the end each stage's figure is the time during which it was the innermost tracked one, and they add up to the elapsed top-level time |
| FsProf.Profiler.BeginThePass | firmware/include/fsprof.h:62-67 | a pass starts in place |
| FsProf.Profiler.EnterStage | firmware/include/fsprof.h:69-79 | entering in place |
| FsProf.Profiler.ExitStage | firmware/include/fsprof.h:81-90 | leaving in place |
| FsProf.Profiler.EndPass | firmware/include/fsprof.h:93-101 | the first stage with the most time |
| Pem.OverflowHarmless | firmware/src/credstore.cpp:372-378 | however often the 32-bit accumulator overflowed, the byte taken is that of the last two sextets |
| Pem.ScanIsBase64 | firmware/src/credstore.cpp:361-379 | the scan accepts exactly base64 with padding at the end and blanks anywhere that fits the buffer, and yields the bytes of its sextets |
| Pem.AcceptedIff | firmware/src/credstore.cpp:361-384 | a body is accepted if and only if it is such base64 in whole groups with at most two pads, starting an ASN.1 SEQUENCE |
| Pem.PemAcceptedIff | firmware/src/credstore.cpp:346-385 | a text is accepted exactly if it has at most CA_MAX characters and is one certificate between its markers, nothing but blanks around it, whose body decodes |
| Pem.AcceptedLength | firmware/src/credstore.cpp:380-383 | on any accepted text the length is 3 * chars / 4 - pad |
| Pem.EncodeSpells | firmware/src/credstore.cpp:337-344 | section 4 of RFC 4648: encoded bytes are read back as those bytes |
| Pem.PemRoundTrip | firmware/src/credstore.cpp:346-385 | every DER of two bytes or more starting 0x30, encoded with any line breaks between the markers, is decoded unchanged |
| Pem.FindIn | firmware/src/credstore.cpp:330-335 | the first occurrence, or none |
| Pem.DecodeBody | firmware/src/credstore.cpp:361-379 | the decoding loop in place |
| Pem.PemToDerIn | firmware/src/credstore.cpp:346-385 | the decoder in place: success, length and bytes |
| CredCommit.CheckSet | firmware/src/credstore.cpp:145-154 | ok if and only if both pairs are whole; otherwise a missing field whose partner is there |
| CredCommit.CommitIsAtomic | firmware/src/creds.cpp:344-353 | on any store: a commit cut after any number of writes leaves it as it was, or boots as nothing, or after the last write as the whole set that the stage makes of the one held |
| CredCommit.CommitOutcome | firmware/src/creds.cpp:310-353 | a commit that nothing cuts takes effect, with the generation one up, exactly if it may write, something is staged and the set it leaves has both of each pair or neither; otherwise the store is as it was |
| CredCommit.CompleteIsPaired | firmware/src/creds.cpp:322-353 | in every run of commits, refused, cut or whole, from any store not itself complete with half a pair: a complete store has both of each pair or neither |
| CredMixture.CutIsRound | firmware/src/creds.cpp:344-353 | a cut leaves the fields as they are after some number of rounds of the loop |
| CredMixture.RoundUnmixed | firmware/src/creds.cpp:344-353 | a whole commit b on top of n rounds of commit a mixes the set before a with the one after it, if and only if b keeps a changed field of those rounds and one of the later ones |
| CredMixture.NoMixtureIff | firmware/src/creds.cpp:344-353 | wherever commit a is cut, a whole commit b after it leaves b of the set before a or b of the set after a, if and only if b keeps at most one field that a was to change |
| CredMixture.MixtureIff | firmware/src/creds.cpp:322-353 | the same of runs with the pair check: a mixture can be left if and only if some round parts two such fields and leaves pairs that b's check accepts |
| CredMixture.MixtureFromIncomplete | firmware/src/creds.cpp:322-353 | a commit of name and passphrase cut after the name, then any other: a complete store with the new name and the old passphrase, which is such a mixture |
| CredCommit.MergedIsWanted | firmware/src/creds.cpp:345-351 | the loop leaves each field as staged, and the others as they were |
| CredCommit.Credentials.CommitStaged | firmware/src/creds.cpp:344-353 | the writes in place stop at the first that fails, and report success exactly after the last |

## Left out

- PlanReader.PollPlanParse: says nothing of what the plan buffer holds after an INVALID body; no caller reads it.
- PollRuns.BoundedBypass: assumes every pick is made within 2^31 ms of what is due, as the signed comparison needs.
- FsIndex.FsTable.FeedName: the scan counters do not wrap at 2^32 names.
- Retention.EnforceKeepsContract: says nothing of the Tier A share when the hydrated raw and change bytes of the index reach 2^32, where the uint32_t sum wraps (`WrapHidesShare`).
- FileStoreRuns.RunKeeps: assumes fewer than 2^31 files in the life of the device, beyond which the index and the signed watermark wrap.
- FsProf.TimeIsConserved: assumes a pass shorter than 2^32 microseconds and no deeper than the 255 the counter counts.
- ChangeDrain.Drainer.WriteActive: a write that stores some of its bytes is left out; the code then takes none as written and the file keeps the fragment.
- SpscRuns.ReachFlashOnce: rows go to flash as they are; their text, the header and the rotation of files are `ChangeDrain`, where a drain is one step.
- ChangeDrain.ExactlyOnce: a write stores all its bytes or none; and leaves out recorderClear, which can empty the ring under the cursor; rows appended before the next drain then hide the reset.
- Calendar.DaysOf: years and days are unbounded integers; the unsigned steps inside an era wrap as in the code.
- A rename that fails, and a failing removal: LittleFS and NVS operations other than opening a file for writing succeed, each as one step.
- A mount that fails, safe mode and the remote erase: they do not touch the loss record; the files they hide or destroy are outside the action system.
- Reading the size, digest and mode of a file (hydration) inside the action system: an index entry carries the size that would be read.
- The choice of the victim inside the action system: any inactive file may be evicted at any time, which covers retention and a full index alike.
- The SHA-256 of a file and of the canonical text: no property of the digest is used.
- File names (`fsParseName`): a name is what it parses to; the name round trip needs an index below 1,000,000.
- The receivers inside the sequencer are values; their update in place is `IsoTp.Receiver`.
- The bit masks of the sequencer (Flow Control owed, MIDs advertised) are sets.
- The atomics of the ring: a load may return any value from the last one seen to the newest; the row data is as the release and acquire pair orders it.
- The raw ring of the recorder, its CSV and the download locks.
- `fsSubWindowNote` and the profiler's windows; `fsUsagePct`.
- Validation of credential fields, the console line and staging buffers, printing.
- Claims the code does not keep and that are therefore not stated: no file open after the idle close; the cached open-file count just after an open; the digest after a short write; extended CAN ids in the change log; no reply cut under COMPLETE when a request reaches its own time limit.
- Wi-Fi, web server, mDNS, UDP, CAN driver, tasks, serial output: no visible semantics here.
