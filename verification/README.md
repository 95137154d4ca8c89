# Atlas: the event log, the pipeline's ordering, and the state indexes

Atlas is an endpoint sensor. This project models its portable core, one Dafny module per source file or
component, and proves what that core keeps over every run. Objects the sensor updates in place are
classes whose methods take the same branches in the same order; ghost fields record the history (what
was accepted, emitted, decided) that the proofs speak about.

**The on-disk event log.** `Framing` is the record format. `Disk` is a directory of segments, which remembers
every instant of a run: each step of the writer (each piece of a write included) adds one, and is related to
all before it by the guarantee `Evolves`. A reader looks through a `Sight`, which is at some instant and moves
on by any amount before each listing, open or read; reading a header or a payload may take any number of
reads. As the writer never waits for a reader, every interleaving of their steps is one in which the writer has
gone on first and the reader looks at the instants in order. Both count the calls that failed, so that every
error answer is tied to one, and the directory knows how much of each file a flush has made sure of.
`Log` and `Segments` relate records, counters and bytes; `Policy` says what the overflow policy and a whole
flush make of the segments; `Writer` is the writer (batches, rotation, eviction, torn writes and retries,
acknowledgement), `Gaps` what a gap report tells; `Reader` the reader; `Recovery` opening after a crash;
`Buffer` the theorems about all of it together, `Crash` those about a run, a crash at any moment of it and the
run after, `Flushing` how long a record waits in memory. An I/O fault is "any prefix of the batch reached the
file"; the checksum is any function, so every theorem holds for CRC32C.

**The pipeline.** `Ordering` is the reorder stage (a heap of keys over reusable slots), `Pipeline` stream
time tied to it, `Completion` the queue that holds the line for pending events, `Confirm` the
failure-confirm window of file operations and the events that wait for it.

**The state indexes.** `KeyMap` (registry names), `EarlyKeys` (the callback's bounded cache of them),
`Cleanups` (Cleanup and outcome pairing), `Buckets` (token buckets), `Recent` (the recency set and map), `Queue`
(the counter-bounded channel, as a transition system over its atomic steps), `Health` (delta reports).

Some statements hold only under a condition, which is then part of the contract:

- `Retention`, `DropOldest` and `HeadTail` are documented to delete rather than drop. `Policy.FullIff` says
  exactly when they find no room all the same, `DropsExactly` which records are then dropped, and
  `Buffer.DropsAfterHuge` is a sequence of calls that ends so. `LogWriter.Tick` promises no drop when every
  record fits a segment; under `HeadTail` also the segments found at the start must have been within the
  segment size (`modest`: the size may have been configured larger before), as it may keep a large one.
- A token bucket keeps its rate over all runs no event of which is more than some distance behind an earlier
  one, if and only if that distance is at most nine seconds and a tick (`Buckets.RateHoldsIff`); it also does
  while at most 8192 processes send events (`RateHoldsForFew`). `BreakerBreaks` is an input one tick beyond.
- A name that the seeder read at `taken` keeps all names true, however late it is heard, if it was right then
  by the events processed, and the map has an entry for the address or has processed no open of the address
  later than `taken` (`SeedFits`; `KeyMap.SeedsKeepIff`: if and only if, over all maps). Otherwise the entry is
  gone and another object is there: `KeyMap.LateSeedMisnames` is a run to that for any cap and any such times.
  A seed heard before events that precede it is not right by those processed: `EarlySeedMisnames` is a run. In
  any run `Keys.Seed` says when names stay true: exactly if it gives the name of the object at the address. A seed
  is refused exactly if the entry at the address is later; `OlderSeedLoses` is a run in which taking it misnames.
- A reader may miss records of a segment deleted before it has read it. `Buffer.DeliversAPrefix` is about states
  in which no segment was; `Buffer.Run` says that none is while the policy deletes nothing and no more is
  acknowledged than the reader has got to; `DeliversAllButDeleted` is about all states.
- A partial registry name, joined to the name of its root, is the handle's name when no part of it is empty or ends
  with a backslash (`KeyMap.KnownCompletes`).
- A failure heard before its operation is remembered, and fails it (`Confirm.FailsLate`, while the set has room).
  `OperationFailed` says exactly when it is not: the set is full and its oldest entry is the same one, claimed before.
- A push to the reorder stage that finds 2^32 slots in use gets a number cut to 32 bits; nothing is promised then.
- In a relative open the base is another handle than the key: a key based on itself is the only cycle.
- In the recency set a key removed and put back at the same time leaves two equal queue entries, so a full
  set may forget it at once; `RecentSet.Insert` says exactly when.

## Model

| member | source | states |
|---|---|---|
| Framing.ParseAccepts | crates/atlas-buffer/src/record.rs:13-50 | an encoded record parses back as itself wherever it lies in the data |
| Framing.ParseSound | crates/atlas-buffer/src/record.rs:32-50 | what parses as a record is exactly the encoding of its payload, within the limits |
| Framing.ParseTorn | crates/atlas-buffer/src/record.rs:32-50 | any proper prefix of an encoded record is incomplete, never a record and never invalid |
| Framing.ParseStays | crates/atlas-buffer/src/record.rs:32-50 | an answer other than incomplete is not changed by what follows; incomplete is only what a header or a payload of an allowed length cut off is |
| Framing.FramesConcat | crates/atlas-buffer/src/record.rs:13-19 | encodings concatenate as their records do |
| Framing.DecodeFrames | crates/atlas-buffer/src/record.rs:62-70 | decoding inverts encoding, up to whatever follows |
| Framing.DecodeCut | crates/atlas-buffer/src/record.rs:62-70 | a byte prefix of encoded records decodes to exactly the records wholly inside it |
| Framing.WholeRecordsFit | crates/atlas-buffer/src/record.rs:62-70 | the number of records wholly inside a prefix is the largest that fits |
| Framing.DecodeSound | crates/atlas-buffer/src/record.rs:62-70 | whatever the bytes, the decoded records are a real prefix of them |
| Framing.Scan | crates/atlas-buffer/src/record.rs:62-70 | the loop finds exactly the decoded records, where they end, and their places |
| Disk.EvolvesTransitive | crates/atlas-buffer/src/writer.rs:257-345 | what a reader may rely on between two instants holds over any number of writer steps |
| Disk.OrderedMore | crates/atlas-buffer/src/writer.rs:257-345 | in a whole run every instant is related so to every later one |
| Disk.Directory.WriteAll | crates/atlas-buffer/src/writer.rs:317-319 | a failed write leaves some prefix of the data at the end of the file; every piece is an instant of the run |
| Disk.Sight.Read | crates/atlas-buffer/src/reader.rs:157-168 | one read finds some of the file as it was at some instant, no earlier than the one before, and nothing only at its end; a failed one is counted |
| Disk.Sight.ReadUpTo | crates/atlas-buffer/src/reader.rs:157-168 | all bytes asked for or up to the end of the file, each piece at an instant of its own: what is planned for that place, whatever the writer cut off and wrote again in between |
| Disk.SoFarLater | crates/atlas-buffer/src/reader.rs:157-168 | bytes read stay right as the writer goes on |
| Disk.SoFarMore | crates/atlas-buffer/src/reader.rs:157-168 | the next piece, read later, fits on to those before |
| Disk.Sight.List | crates/atlas-buffer/src/reader.rs:90-101 | so does a listing, which may also show names being deleted, or is counted as failed |
| Disk.Directory.Remove | crates/atlas-buffer/src/writer.rs:468-476 | the name of a segment the writer has left goes or stays; an open file keeps its bytes |
| Disk.PieceEvolves | crates/atlas-buffer/src/writer.rs:317-319 | a torn write keeps the guarantee: every file stays a prefix of what is planned for it |
| Disk.SealEvolves | crates/atlas-buffer/src/writer.rs:332-344 | the writer leaves a segment only once it holds all that was planned for it, and never comes back |
| Disk.RewriteSound | crates/atlas-buffer/src/writer.rs:487-510 | cutting a file before readers start leaves the directory sound |
| Log.LedgerCounts | crates/atlas-buffer/src/writer.rs:139-184 | accepted = written + dropped + queued, and the segments hold exactly the written ones in order |
| Log.LedgerWrite | crates/atlas-buffer/src/writer.rs:317-326 | writing the front of the queue to the newest segment keeps the ledger |
| Log.LedgerDrop | crates/atlas-buffer/src/writer.rs:414-423 | dropping the queue keeps it |
| Log.LedgerAccept | crates/atlas-buffer/src/writer.rs:139-152 | accepting a record keeps it |
| Log.LedgerRotate | crates/atlas-buffer/src/writer.rs:332-344 | a rotation keeps it |
| Log.BatchGrows | crates/atlas-buffer/src/writer.rs:298-308 | records queued after a torn write never shorten the batch a retry repeats |
| Log.BatchFits | crates/atlas-buffer/src/writer.rs:298-308 | a batch fits the segment, unless it is one record alone in an empty one |
| Log.RecordsJoin | crates/atlas-buffer/src/writer.rs:76-135 | the log is what earlier runs left and then what this run holds |
| Segments.WrittenOnDisk | crates/atlas-buffer/src/writer.rs:317-326 | after a batch the active segment's good length covers exactly its records |
| Segments.TornOnDisk | crates/atlas-buffer/src/writer.rs:296-329 | after a torn write the bytes past the good length are a prefix of what is queued |
| Segments.CutOnDisk | crates/atlas-buffer/src/writer.rs:273-285 | reopening cuts the torn bytes and keeps every written record |
| Segments.RotatedOnDisk | crates/atlas-buffer/src/writer.rs:332-344 | after a rotation the old segment is complete and the new one starts empty |
| Segments.RemovedOnDisk | crates/atlas-buffer/src/writer.rs:349-376 | deleting a sealed segment leaves the others as they were |
| Segments.SealedFile | crates/atlas-buffer/src/writer.rs:287-345 | a sealed segment is exactly its records |
| Segments.ActiveFile | crates/atlas-buffer/src/writer.rs:287-345 | the active segment is its records and then a prefix of what is pending |
| Policy.VictimExists | crates/atlas-buffer/src/writer.rs:380-397 | while over the cap a policy that deletes finds a victim when records fit: the pinned quarter never covers all sealed segments, nor leaves out the oldest under `HeadTail` |
| Policy.NoVictimIff | crates/atlas-buffer/src/writer.rs:380-397 | exactly when a policy finds no segment to delete |
| Policy.FullIff | crates/atlas-buffer/src/writer.rs:349-376 | exactly when making room ends without room, so that records are dropped: the active segment alone leaves none (`Retention`, `DropOldest`), some oldest segments that are never deleted leave none with it (`HeadTail`), or all do (`DropNewest`) |
| Policy.HeadStays | crates/atlas-buffer/src/writer.rs:384-394 | the head that `HeadTail` pins only shrinks while it deletes |
| Policy.DropsExactly | crates/atlas-buffer/src/writer.rs:296-329 | over a whole flush without failures `Retention` and `DropOldest` drop exactly the records queued behind one that leaves no room for a segment after it |
| Policy.HeadTailDrops | crates/atlas-buffer/src/writer.rs:296-329 | under `HeadTail` a flush drops records exactly if at one of its rotations what is kept at the head leaves no room; and no fewer than the other policies drop |
| Policy.BatchHuge | crates/atlas-buffer/src/writer.rs:298-326 | a batch leaves room for another segment unless it is one such record |
| Policy.OldestGo | crates/atlas-buffer/src/writer.rs:349-397 | without failures `Retention` and `DropOldest` delete the oldest, one after the other, and no more than it takes |
| Policy.BatchIsMost | crates/atlas-buffer/src/writer.rs:298-308 | a batch is all that fits, or one record alone that starts a segment |
| Writer.LogWriter.constructor | crates/atlas-buffer/src/writer.rs:76-135 | a writer over the segments found, the last one new |
| Writer.LogWriter.Append | crates/atlas-buffer/src/writer.rs:139-152 | refused exactly when empty, oversized or past the backlog; else the last of the queue |
| Writer.LogWriter.Tick | crates/atlas-buffer/src/writer.rs:156-184 | no I/O unless due, and only a due tick moves the next one; fails exactly if a call failed or the numbers ran out; success empties the queue and flushes, failure keeps it for the retry; without failures segments and drops are exactly those of `Flushed`; nothing dropped when the policy deletes and records fit (under `HeadTail` also what was found at the start); while nothing is evicted no file's name goes |
| Writer.NoRoomFor | crates/atlas-buffer/src/writer.rs:349-376 | records that fit are dropped only under `DropNewest`, or under `HeadTail` with larger segments found at the start |
| Writer.LogWriter.FlushNow | crates/atlas-buffer/src/writer.rs:257-269 | what was not written is what stays pending, even on an error; an error exactly if a call failed or the numbers ran out; idle does no I/O |
| Writer.LogWriter.OpenActive | crates/atlas-buffer/src/writer.rs:273-285 | the file is cut at its good length, and gets its header if new |
| Writer.LogWriter.WriteFrom | crates/atlas-buffer/src/writer.rs:296-329 | every record is written or dropped once, in order; without failures exactly as `Flushed` says; the bytes handled are whole records |
| Writer.LogWriter.NextBatch | crates/atlas-buffer/src/writer.rs:298-308 | the loop finds exactly the whole records that fit |
| Writer.LogWriter.WriteBatch | crates/atlas-buffer/src/writer.rs:319-326 | a batch is written whole and counted, or torn and still queued |
| Writer.LogWriter.Rotate | crates/atlas-buffer/src/writer.rs:332-344 | the next number and an empty segment, or exactly when there is no room none, or an error that leaves a state to retry from |
| Writer.LogWriter.StartNext | crates/atlas-buffer/src/writer.rs:335-344 | the old segment is flushed and final before the next one exists |
| Writer.LogWriter.SyncActive | crates/atlas-buffer/src/writer.rs:335-337 | a flush makes sure of the whole active file, or failed |
| Writer.LogWriter.RotateOrDrop | crates/atlas-buffer/src/writer.rs:309-318 | with no room the rest of the queue is dropped and counted |
| Writer.LogWriter.MakeRoom | crates/atlas-buffer/src/writer.rs:349-376 | without failures it deletes what `Fitted` says, reports exactly the records in it unless the policy is `Retention`, and is full exactly when that is over the cap; otherwise each failure is another segment, and over the cap every segment the policy may delete has failed |
| Writer.EvictedTold | crates/atlas-buffer/src/writer.rs:349-376 | the records reported and those in the segments left are together those in the segments before, however many are deleted |
| Writer.LogWriter.Victim | crates/atlas-buffer/src/writer.rs:380-397 | the first sealed segment past the pinned ones that is not skipped |
| Writer.LogWriter.SegmentGap | crates/atlas-buffer/src/writer.rs:401-411 | counts exactly the whole records of the segment that was read, with the first and the last of their times; none if reading failed or it is not a segment |
| Writer.LogWriter.DropPending | crates/atlas-buffer/src/writer.rs:414-423 | counts every queued record as dropped and adds it and its time to the open gap |
| Writer.LogWriter.Ack | crates/atlas-buffer/src/writer.rs:197-219 | any cursor: never back, never past the newest, none that cannot be stored; then only segments wholly before the cursor go, and all of them unless one cannot be deleted |
| Writer.LogWriter.TakeGaps | crates/atlas-buffer/src/writer.rs:236-241 | the closed gaps and the open one, once |
| Gaps.GapTells | crates/atlas-buffer/src/lib.rs:97-118 | a gap filled in any pieces counts all its records; its times are the least and the greatest among them, none exactly if no record has one |
| Gaps.AllTold | crates/atlas-buffer/src/lib.rs:109-118 | adding more records to a gap keeps it telling of all |
| Reader.Stable | crates/atlas-buffer/src/reader.rs:63-153 | whatever the writer does, what a reader has read stays true and its place stays a record boundary |
| Reader.TakeNext | crates/atlas-buffer/src/reader.rs:129-153 | a record read is the next one planned: none skipped, none twice |
| Reader.MoveOn | crates/atlas-buffer/src/reader.rs:85-88 | leaving a sealed segment read to its end keeps the reader's place in the log |
| Reader.RecordSeen | crates/atlas-buffer/src/reader.rs:129-153 | a whole frame read while the writer appends is the record planned there |
| Reader.LogReader.constructor | crates/atlas-buffer/src/reader.rs:49-51 | a reader may start at the log's start, at any record boundary, or past the end of a segment that a power cut made shorter |
| Reader.LogReader.ReadAt | crates/atlas-buffer/src/reader.rs:129-153 | the next record and its place; the end only at the end of the file, an error exactly if a read failed; end or bad only if at some instant of the call no whole record lay there; on a final segment the answer is final |
| Reader.TornThere | crates/atlas-buffer/src/reader.rs:129-153 | a file that ends inside a record holds no whole record there |
| Reader.LogReader.EnterSegment | crates/atlas-buffer/src/reader.rs:96-126 | opens the first segment at or after the position, skipping none that holds records unless it was deleted or is being deleted; none only if at some instant none was ready; an error exactly if a call failed |
| Reader.LogReader.NewerSegmentExists | crates/atlas-buffer/src/reader.rs:90-92 | a newer segment seen means this one is final |
| Reader.LogReader.NextRecord | crates/atlas-buffer/src/reader.rs:63-82 | delivers the next record, or has caught up: at some instant of the call nothing whole was left at the position, and at some instant no later segment existed; an error exactly if a call failed; counts a segment corrupt only on a damaged disk |
| Reader.LogReader.ReadAtLast | crates/atlas-buffer/src/reader.rs:72-79 | after the last read of a sealed segment nothing in it is left unread |
| Buffer.NoneLostOrDoubled | crates/atlas-buffer/src/writer.rs:139-423 | in every reachable state accepted records split in order into written, dropped and queued |
| Buffer.FilesHoldTheLog | crates/atlas-buffer/src/writer.rs:257-344 | sealed files are exactly their records, the active one its records and a prefix of pending |
| Buffer.CapHolds | crates/atlas-buffer/src/writer.rs:332-376 | from the first rotation on, without delete failures and with records that fit, the segments stay under the cap, whatever size those found at the start had |
| Buffer.DeliversAPrefix | crates/atlas-buffer/src/reader.rs:63-153 | in every state of a run: what lies before a reader's start and what it delivered are together a prefix of the log (what earlier runs left, what was written, what is queued), unless a segment was deleted before the reader had read it; and it counted nothing corrupt |
| Buffer.DeliversAllButDeleted | crates/atlas-buffer/src/reader.rs:63-153 | in every state, whatever was deleted: what was delivered is the log in order, whole segment by whole segment, but of each deleted one only the records up to some point |
| Buffer.Run | crates/atlas-buffer/src/reader.rs:63-153 | both after any run at all of appends, ticks, acknowledgements, damage and reads, the steps inside a read falling on any instants; every record given is accepted or counted as refused; and while nothing is evicted and no more acknowledged than was read, no segment is deleted unread and the deliveries are a prefix of the log |
| Buffer.NoneUnreadStill | crates/atlas-buffer/src/writer.rs:197-219 | what an acknowledgement of what was read deletes was read to its end |
| Buffer.PlannedLog | crates/atlas-buffer/src/writer.rs:257-344 | what the files are to hold is what earlier runs left, what was written and the first of what is queued |
| Buffer.TakenIsWhole | crates/atlas-buffer/src/reader.rs:63-153 | with nothing deleted unread, what a reader has behind it is everything before its position |
| Buffer.TakenButDeleted | crates/atlas-buffer/src/reader.rs:63-153 | otherwise everything but records of deleted segments |
| Buffer.Reopen | crates/atlas-buffer/src/writer.rs:76-135 | after a restart a valid writer and a valid reader at the stored cursor, the record count before it cut to what recovery kept; only delivered segments are gone |
| Buffer.LoadedCursorStands | crates/atlas-buffer/src/writer.rs:76-135 | wherever a stored cursor points after recovery, a reader may start there |
| Buffer.DropsAfterHuge | crates/atlas-buffer/src/lib.rs:36-47 | a real sequence of calls after which a record was dropped, under every policy |
| Flushing.Run | crates/atlas-buffer/src/writer.rs:156-184 | over any run of appends and ticks in time order in which no flush fails, a record accepted before a tick is written or dropped by any tick an interval or more later |
| Crash.LeavesSound | crates/atlas-buffer/src/writer.rs:257-344 | whatever a crash leaves (of each file some part of its beginning, at least what was flushed; deleted names back or not) is a directory the next run can open |
| Crash.OnlyNewest | crates/atlas-buffer/src/writer.rs:332-344 | as a segment is flushed before the next is made, only the newest can lose anything |
| Crash.CursorsLoad | crates/atlas-buffer/src/writer.rs:76-135 | any cursor that a reader was at, at any instant of the run, is one the next run can start from |
| Crash.RecoverySurvives | crates/atlas-buffer/src/writer.rs:76-135 | after crash and recovery every segment before the newest is as it was, the newest has the records that survived; gone are only delivered ones and the newest |
| Crash.FlushedSurvives | crates/atlas-buffer/src/writer.rs:257-269 | once nothing is left to flush, every record written is there after a crash and recovery, unless its segment was delivered or deleted |
| Crash.DeliversAcross | crates/atlas-buffer/src/reader.rs:63-153 | what a run delivered up to the stored cursor and what the next one delivers are together a prefix of the log over the crash: none twice, none out of order, none left out but what the crash took |
| Crash.AfterCrash | crates/atlas-buffer/src/writer.rs:76-135 | the same after any run, a crash at any moment, recovery and any run |
| Recovery.TornHeaderIff | crates/atlas-buffer/src/writer.rs:478-483 | the header check accepts exactly the files that begin with some of the magic's bytes and are zero after them |
| Recovery.RecoversWhatSurvived | crates/atlas-buffer/src/writer.rs:487-510 | any byte prefix of a segment recovers to exactly the records wholly inside it |
| Recovery.ZeroTailIsNotForeign | crates/atlas-buffer/src/writer.rs:478-510 | nor is such a prefix followed by zeros ever called foreign |
| Recovery.RecoveryIsIdempotent | crates/atlas-buffer/src/writer.rs:487-510 | recovering what was recovered changes nothing |
| Recovery.RecoverNewest | crates/atlas-buffer/src/writer.rs:487-510 | the file is cut to what recovers, and how many bytes that takes off; a torn header is made whole, a foreign file is left alone |
| Recovery.PrefixRecovers | crates/atlas-buffer/src/writer.rs:487-510 | a file that is a prefix of what was planned for it recovers to exactly the records wholly inside it |
| Recovery.Open | crates/atlas-buffer/src/writer.rs:76-135 | only delivered segments go; survivors keep their records; the new segment's number is past every survivor and the loaded cursor; the report tells the bytes cut, a foreign newest segment and the delivered segments still there; refused exactly for a bad configuration or exhausted numbers |
| Recovery.OpenSegment | crates/atlas-buffer/src/writer.rs:93-113 | one segment of the loop: deleted if delivered, else kept, the newest after recovery, with its cut and failure counts |
| Recovery.OpenedLog | crates/atlas-buffer/src/writer.rs:76-135 | what is left on disk is a valid log for the new writer |
| Recent.KeysWithinQueue | crates/atlas-agent/src/recent.rs:35-47 | keys are never more than queue entries |
| Recent.RecentSet.Insert | crates/atlas-agent/src/recent.rs:35-47 | the latest time wins; past the cap the oldest entry goes; exactly when the key itself is forgotten |
| Recent.RecentSet.Remove | crates/atlas-agent/src/recent.rs:53-56 | the key goes, its time is returned |
| Recent.RecentSet.Expire | crates/atlas-agent/src/recent.rs:59-63 | never forgets a key seen since; with times in order exactly what a plain scan would |
| Recent.ScanAgrees | crates/atlas-agent/src/recent.rs:59-63 | a queue in time order whose front is not stale agrees with the scan |
| Recent.RecentSet.PopFront | crates/atlas-agent/src/recent.rs:65-73 | a stale entry goes without its key |
| Recent.RecentMap.Insert | crates/atlas-agent/src/recent.rs:106-112 | a second insert always replaces value and time; past the cap the oldest entry goes; exactly when the key itself is forgotten |
| Recent.RecentMap.Remove | crates/atlas-agent/src/recent.rs:119-121 | the key goes, its value and time are returned |
| Recent.RecentMap.Expire | crates/atlas-agent/src/recent.rs:124-128 | never forgets a key recorded since; with times in order exactly what a plain scan would |
| Completion.ForcedAreOlder | crates/atlas-agent/src/completion.rs:91-109 | every forced event is older than every unforced one |
| Completion.NoneForced | crates/atlas-agent/src/completion.rs:166-204 | once the front is blocked no forced event is left and the pending ones are within the cap |
| Completion.BlockedIff | crates/atlas-agent/src/completion.rs:178-183 | an event holds the line exactly if it is unforced and has an unresolved wait with no deadline or a later one |
| Completion.LeavesIff | crates/atlas-agent/src/completion.rs:184-199 | it leaves as nothing exactly if unforced with an unresolved wait that drops it; else unchanged exactly if every wait is resolved |
| Completion.ExpiredsMore | crates/atlas-agent/src/completion.rs:184-199 | what it is finished with are the unresolved reasons, in order, each with whether it drops the event |
| Completion.LeaveTracked | crates/atlas-agent/src/completion.rs:175-199 | the front slot leaves with one fate, and what is emitted stays in push order |
| Completion.CancelTracked | crates/atlas-agent/src/completion.rs:150-156 | a cancelled event was still in line, keeps its place there, and is never emitted |
| Completion.LeaveNumbered | crates/atlas-agent/src/completion.rs:175-199 | each pending id leaves once |
| Completion.Stage.Push | crates/atlas-agent/src/completion.rs:86-88 | an event joins the line |
| Completion.Stage.PushPending | crates/atlas-agent/src/completion.rs:91-109 | a pending event joins the line with its waits open; past the cap the oldest unforced one is forced |
| Completion.Stage.ForceOut | crates/atlas-agent/src/completion.rs:99-107 | exactly one event is forced, the oldest unforced |
| Completion.Stage.Update | crates/atlas-agent/src/completion.rs:112-120 | only the event's payload changes |
| Completion.Stage.AddWait | crates/atlas-agent/src/completion.rs:123-131 | one more open wait |
| Completion.Stage.Resolve | crates/atlas-agent/src/completion.rs:134-142 | every wait of the reason is resolved, no other |
| Completion.Stage.Cancel | crates/atlas-agent/src/completion.rs:150-156 | the event leaves unemitted and its id exits once |
| Completion.Stage.TakeExited | crates/atlas-agent/src/completion.rs:159-161 | each id that left is reported once |
| Completion.Stage.TakeFront | crates/atlas-agent/src/completion.rs:175-199 | what one slot puts out, and its one fate |
| Completion.Stage.Drain | crates/atlas-agent/src/completion.rs:166-204 | the longest front of the line that may go, in push order: the first slot that stays is an unforced event with an unresolved wait that has no deadline or a later one, and none that left is; afterwards none is forced and at most `cap` are pending |
| Completion.Stage.Flush | crates/atlas-agent/src/completion.rs:209-235 | everything leaves, in order, with a fate |
| Ordering.StoreKey | crates/atlas-agent/src/ordering.rs:56-74 | storing an event keeps keys and occupied slots in bijection and the free list exact |
| Ordering.TakeKey | crates/atlas-agent/src/ordering.rs:86-96 | so does taking one out |
| Ordering.EnterPast | crates/atlas-agent/src/ordering.rs:56-74 | an event that enters is no earlier than what was released |
| Ordering.ReleasePast | crates/atlas-agent/src/ordering.rs:86-96 | releasing the first held event keeps releases sorted by time, then arrival |
| Ordering.LeastIsFirst | crates/atlas-agent/src/ordering.rs:86-96 | the least key in the heap is the first event held |
| Ordering.CompactStored | crates/atlas-agent/src/ordering.rs:100-111 | renumbering slots loses nothing |
| Ordering.Stage.Push | crates/atlas-agent/src/ordering.rs:56-74 | late exactly when older than the last release, else held; sound while the slot number fits 32 bits |
| Ordering.Stage.NextDue | crates/atlas-agent/src/ordering.rs:77-79 | the first event whose hold has passed |
| Ordering.Stage.NextHeld | crates/atlas-agent/src/ordering.rs:82-84 | the first event of all |
| Ordering.Stage.NextUntil | crates/atlas-agent/src/ordering.rs:86-96 | extract-min of the held multiset, up to a limit |
| Ordering.Stage.Compact | crates/atlas-agent/src/ordering.rs:100-111 | the held events are the same, the slots as many |
| Pipeline.Clock.Push | crates/atlas-agent/src/pipeline/mod.rs:133-143 | late exactly when older than stream time; the stage's own late result is never reached; sound while the slot number fits 32 bits |
| Pipeline.Clock.Tick | crates/atlas-agent/src/pipeline/mod.rs:158-168 | all due events are processed, each when stream time is its own time; stream time ends at the later of the last release and the time less the hold, and never falls |
| Pipeline.Clock.Stop | crates/atlas-agent/src/pipeline/mod.rs:172-180 | every event that arrived was processed exactly once, late or in order: the two are together the arrivals, as multisets |
| Pipeline.Clock.Step | crates/atlas-agent/src/pipeline/mod.rs:209-219 | stream time moves forward only |
| Pipeline.Clock.Advance | crates/atlas-agent/src/pipeline/mod.rs:222-234 | at the end of a tick nothing held is older than stream time |
| Pipeline.Clock.Counted | crates/atlas-agent/src/pipeline/mod.rs:172-180 | with nothing held arrivals are the late ones and the ordered ones, as multisets |
| Pipeline.AllReleased | crates/atlas-agent/src/ordering.rs:86-96 | with nothing held, what was released is a permutation of what entered |
| Confirm.HoldWaits | crates/atlas-agent/src/pipeline/file.rs:293-309 | every operation still waiting is held exactly once, after one more is held |
| Confirm.FailWaits | crates/atlas-agent/src/pipeline/file.rs:633-641 | and after one failed |
| Confirm.PopWaits | crates/atlas-agent/src/pipeline/file.rs:741-757 | and after the front was confirmed, which was waiting if it had not failed |
| Confirm.HoldIndexed | crates/atlas-agent/src/pipeline/file.rs:293-309 | the index points at the newest operation of each Irp after one is held |
| Confirm.FailIndexed | crates/atlas-agent/src/pipeline/file.rs:626-641 | and after one is taken out |
| Confirm.PopIndexed | crates/atlas-agent/src/pipeline/file.rs:741-757 | and after the front leaves |
| Confirm.IndexFinds | crates/atlas-agent/src/pipeline/file.rs:633-641 | an Irp is indexed exactly when its newest held operation has not failed |
| Confirm.Window.Hold | crates/atlas-agent/src/pipeline/file.rs:293-309 | waiting, or failed at once if its failure came first and then its event is gone, or confirmed at once |
| Confirm.Window.Start | crates/atlas-agent/src/pipeline/file.rs:283-309 | the event takes its place in line; its operation has failed exactly if a failure of its Irp was heard, at its time or up to a window later, and then the event is gone; else it waits to be confirmed exactly while the operation is held |
| Confirm.Window.OperationFailed | crates/atlas-agent/src/pipeline/file.rs:612-647 | takes exactly the newest unfailed operation of the Irp; else late exactly if one was lately confirmed; else it is remembered at the latest time known, with the exact exception; the position never underflows |
| Confirm.Window.FileConfirm | crates/atlas-agent/src/pipeline/file.rs:741-757 | exactly the front operations past their window stand, are known as confirmed for 40 windows while there is room, and their events wait no longer; unclaimed failures are known for a window; what waits is still held, and at the end of time nothing waits |
| Confirm.Window.Fail | crates/atlas-agent/src/pipeline/file.rs:312-332 | only a waiting operation fails, so none is settled twice; its event is cancelled |
| Confirm.FailsLate | crates/atlas-agent/src/pipeline/file.rs:293-309 | a failure heard before its operation, at its time or up to a window later, fails it when it comes, and its event is gone, while the set that remembers failures has room |
| Confirm.LateIsLate | crates/atlas-agent/src/pipeline/file.rs:612-647 | a failure heard after its operation stood is counted as late and is not kept for a later operation of the Irp |
| Confirm.Window.AwaitsIffHeld | crates/atlas-agent/src/pipeline/file.rs:283-332 | in every reachable state a pending event waits to be confirmed exactly while its operation is held: no Confirm wait outlives it |
| Confirm.TiedEnter | crates/atlas-agent/src/pipeline/file.rs:293-309 | that stays so when an operation is held or settled at once |
| Confirm.TiedSettle | crates/atlas-agent/src/pipeline/file.rs:721-738 | when one is confirmed or fails |
| Confirm.TiedStays | crates/atlas-agent/src/completion.rs:112-142 | and when pending events change or leave for other reasons |
| KeyMap.Keys.constructor | crates/atlas-agent/src/keymap.rs:65-67 | an empty map |
| KeyMap.Keys.Open | crates/atlas-agent/src/keymap.rs:70-81 | the new object's name by the three rules, written out: a path under the registry's root, one joined to the base's name if that is known, or one below the base; true while the base's is known; what waited on the address loses its base; no other known name changes; of the open handles at most an eighth goes, none touched later than one that stays, and never the new one |
| KeyMap.Keys.Seed | crates/atlas-agent/src/keymap.rs:85-94 | refused exactly if a later entry is there; else the handle and every handle below it get full names, or what waited on a tombstone closed by then is orphaned; in a run in time order a seed of any lateness that `SeedFits` keeps every name true; in any run names stay true exactly if it gives the name of the object at the address |
| KeyMap.OlderSeedLoses | crates/atlas-agent/src/keymap.rs:85-94 | for every cap and all times `taken < last` a run in which a seed right at `taken` is refused, and would have named the object opened at `last` as the earlier one |
| KeyMap.SeedExact | crates/atlas-agent/src/keymap.rs:85-138 | true names stay true through a seed, that of the key and of all that waits under it, if and only if it gives the name of the object at the address |
| KeyMap.AllGivenSame | crates/atlas-agent/src/keymap.rs:124-138 | the name that an object has already renames nothing below it |
| KeyMap.FitsPresent | crates/atlas-agent/src/keymap.rs:85-94 | a seed right when taken, however late, gives the name of the object that is there now if the map has an entry no newer than it, or nothing was opened there since |
| KeyMap.SeedsKeepIff | crates/atlas-agent/src/keymap.rs:85-94 | over all maps, names and addresses: seeds right when taken that are accepted keep names true if and only if the map knows the address or its last open is not after `taken` |
| KeyMap.Keys.SeedNamed | crates/atlas-agent/src/keymap.rs:85-94 | every handle below the key, directly or not, gets the joined name |
| KeyMap.GivenFits | crates/atlas-agent/src/keymap.rs:124-138 | the names a seed gives agree with each other all the way down |
| KeyMap.EarlySeedMisnames | crates/atlas-agent/src/keymap.rs:85-94 | a run in which a seed heard before the events that precede it gives a child an untrue full name |
| KeyMap.LateSeedMisnames | crates/atlas-agent/src/keymap.rs:85-121 | for every cap and all times `taken < last` a run in which a seed right at `taken` names the object opened at `last`, whose entry was evicted, as the earlier one |
| KeyMap.Keys.OrphanChildren | crates/atlas-agent/src/keymap.rs:97-105 | exactly the waiting children become orphans |
| KeyMap.Keys.Set | crates/atlas-agent/src/keymap.rs:107-121 | the entry is set, the size stays within the cap, other names are kept |
| KeyMap.Keys.NameChildren | crates/atlas-agent/src/keymap.rs:124-138 | terminates with nothing waiting on a known name, and no handle losing its base |
| KeyMap.Keys.NameBelow | crates/atlas-agent/src/keymap.rs:129-136 | each child of a named base gets the joined name |
| KeyMap.Keys.Close | crates/atlas-agent/src/keymap.rs:143-150 | tombstone exactly while children wait; an unknown base orphans them |
| KeyMap.Keys.Unlink | crates/atlas-agent/src/keymap.rs:197-208 | terminates, up the acyclic chain of bases; removes only needless tombstones |
| KeyMap.Keys.DropIfDead | crates/atlas-agent/src/keymap.rs:211-216 | a tombstone nobody waits on goes |
| KeyMap.Keys.Remove | crates/atlas-agent/src/keymap.rs:218-222 | the entry goes, and with it only needless tombstones |
| KeyMap.Keys.EvictBatch | crates/atlas-agent/src/keymap.rs:225-233 | of the live entries exactly the least recently touched eighth goes, counted, never the newest |
| KeyMap.Oldest | crates/atlas-agent/src/evict.rs:6-17 | an eighth (at least one) of the entries, none touched later than one that stays |
| KeyMap.NewestStays | crates/atlas-agent/src/evict.rs:6-17 | the newest of several is not among them |
| KeyMap.OldestWent | crates/atlas-agent/src/keymap.rs:225-233 | of the handles open before, those that an eviction takes were touched no later than those left |
| KeyMap.Keys.Resolve | crates/atlas-agent/src/keymap.rs:162-195 | a full name exactly when the entry itself is named, and then the true one; otherwise the chain below its root; the handle counts as the one used last |
| KeyMap.ChainIsTrue | crates/atlas-agent/src/keymap.rs:162-195 | a partial name is what is missing above it: the root's true name completes it to the handle's |
| KeyMap.KnownCompletes | crates/atlas-agent/src/keymap.rs:162-195 | the known part joined to the root's name is the name made by joining one part after the other, if no part is empty or ends with a backslash |
| KeyMap.Insert | crates/atlas-agent/src/keymap.rs:107-121 | a new entry keeps index, tombstones, acyclicity and truth |
| KeyMap.GetName | crates/atlas-agent/src/keymap.rs:129-134 | so does naming one child |
| KeyMap.LoseBase | crates/atlas-agent/src/keymap.rs:97-105 | and orphaning one |
| KeyMap.Unwait | crates/atlas-agent/src/keymap.rs:197-206 | and taking one out of the waiting index, whose base was set before it |
| KeyMap.Delete | crates/atlas-agent/src/keymap.rs:218-233 | and deleting an entry |
| KeyMap.ChildrenNamed | crates/atlas-agent/src/keymap.rs:124-138 | children of a named base are named |
| Cleanups.EachCleanupCountedOnce | crates/atlas-agent/src/intake.rs:238-310 | Cleanups seen = waiting + decided + unpaired + late + failed + forgotten at the cap |
| Cleanups.AnswerTells | crates/atlas-agent/src/intake.rs:271-278 | a waiting Cleanup and the OperationEnd deciding it have nothing between them on the Irp, and 0 to `window` apart; neither was used before |
| Cleanups.EarlyTells | crates/atlas-agent/src/intake.rs:247-262 | so do a Cleanup and an outcome that came before it |
| Cleanups.GiveTells | crates/atlas-agent/src/intake.rs:238-244 | a Cleanup that gets no outcome is counted once |
| Cleanups.ClearTells | crates/atlas-agent/src/intake.rs:263-266 | past the cap every waiting Cleanup is forgotten, and nothing else changes |
| Cleanups.LaterStill | crates/atlas-agent/src/intake.rs:238-310 | once settled, a Cleanup's fate never changes |
| Cleanups.Callback.NextOp | crates/atlas-agent/src/intake.rs:238-244 | a waiting Cleanup becomes unpaired, counted |
| Cleanups.Callback.CleanUp | crates/atlas-agent/src/intake.rs:247-268 | decided at once by an early outcome in the window, else it waits |
| Cleanups.Callback.End | crates/atlas-agent/src/intake.rs:271-291 | passed on exactly when a request's, or a Cleanup's in time that reports a delete or nothing for a requested one |
| Cleanups.Callback.Decide | crates/atlas-agent/src/intake.rs:294-301 | passing a delete on settles the request |
| Cleanups.Callback.OperationFailed | crates/atlas-agent/src/intake.rs:304-310 | the Cleanup fails; what a failed operation asked for does not count |
| Cleanups.Callback.Close | crates/atlas-agent/src/intake.rs:312-316 | the handle's delete-on-close flag goes |
| Cleanups.Callback.Request | crates/atlas-agent/src/intake.rs:322-328 | the request is outstanding under its Irp |
| Cleanups.Callback.Clear | crates/atlas-agent/src/intake.rs:333-337 | clears the handle's own flag, else the file's request |
| EarlyKeys.KeyCache.Open | crates/atlas-agent/src/intake.rs:356-374 | every name in the cache is the one an unbounded map would have; only the oldest are forgotten, and no more than needed |
| EarlyKeys.KeyCache.Close | crates/atlas-agent/src/intake.rs:376-378 | the name goes |
| EarlyKeys.KeyCache.Trim | crates/atlas-agent/src/intake.rs:389-404 | names within the cap, order within twice the cap, none live lost from the order |
| EarlyKeys.PopFront | crates/atlas-agent/src/intake.rs:391-397 | popping the order's front forgets exactly the oldest name, if it is live |
| EarlyKeys.LiveFits | crates/atlas-agent/src/intake.rs:399-402 | dropping stale entries leaves no more than there are names |
| Buckets.RateHolds | crates/atlas-agent/src/intake.rs:428-449 | over any span of a run in which no event is more than a tick over nine seconds behind: 1000 * accepted * frequency <= rate * frequency + rate * span |
| Buckets.RateHoldsForFew | crates/atlas-agent/src/intake.rs:428-449 | the same for any times while at most 8192 processes send |
| Buckets.RateHoldsIff | crates/atlas-agent/src/intake.rs:428-449 | and exactly then: the rate holds over all runs no event of which is more than a given distance behind, if and only if the distance is at most nine seconds and a tick |
| Buckets.RefusedAtRate | crates/atlas-agent/src/intake.rs:428-449 | in such runs an event of a process whose events come in time order is refused only if one more since some event of its own would exceed what the rate allows, less at most a thousandth of a record for each event |
| Buckets.NoLimit | crates/atlas-agent/src/intake.rs:428-449 | a rate of none refuses nothing |
| Buckets.KeptBound | crates/atlas-agent/src/intake.rs:436-448 | the bound for any times, while no bucket is forgotten |
| Buckets.ForgettingIsUnseen | crates/atlas-agent/src/intake.rs:431-435 | forgetting idle processes changes no answer in such runs |
| Buckets.FewProcesses | crates/atlas-agent/src/intake.rs:431-435 | nor while at most 8192 processes send |
| Buckets.ForgettingUnseenIff | crates/atlas-agent/src/intake.rs:431-435 | and exactly in such runs |
| Buckets.BreakerBreaks | crates/atlas-agent/src/intake.rs:431-435 | an input one tick further behind that gets two bursts in less than a second |
| Buckets.FullAgain | crates/atlas-agent/src/intake.rs:432 | a bucket idle for a second is a full bucket |
| Buckets.Limiter.Take | crates/atlas-agent/src/intake.rs:428-449 | the method is the step the runs are made of |
| Queue.EveryRunIsBounded | crates/atlas-agent/src/queue.rs:36-60 | in any interleaving the counter covers the queue and never wraps, `try_send` alone queues at most the cap, order is kept, no message is lost or doubled |
| Queue.QuietCounterIsLength | crates/atlas-agent/src/queue.rs:82-106 | with no call in flight the counter is the length, and a `try_send` is refused exactly at the cap |
| Queue.TriesStayWithinCap | crates/atlas-agent/src/queue.rs:36-45 | without `send` the queue itself stays within the cap |
| Queue.StepKeeps | crates/atlas-agent/src/queue.rs:36-106 | every atomic step keeps the invariant |
| Health.ReportsAddUp | crates/atlas-agent/src/health.rs:95-133 | whatever goes unread, a counter's reports add up to its last reading less its first if and only if its readings never fall |
| Health.FromStart | crates/atlas-agent/src/health.rs:81-104 | from the start they add up to the counter itself |
| Health.WrappingAddsUp | crates/atlas-agent/src/health.rs:135-137 | for 32-bit counters they add up to the truth if and only if every step between readings is below 2^32 |
| Health.UnpairedAddsUp | crates/atlas-agent/src/health.rs:214-216 | the two-part figure adds up if and only if both parts never fall |

## Left out

- Everything under `crates/atlas-agent/src/win/`, the schema, protobuf and ETW parsing crates, settings, the threads and the watchlist: foreign calls, tables and conversions.
- The writer's `close`, the cursor file's encoding (`Recovery.Open` takes what was loaded, `Ack` a flag for whether storing it worked) and I/O errors other than failed deletes while opening.
- The test hook that injects arbitrary bytes in place of a batch: here a torn write is a prefix of the batch.
- Readers that stay open across a power cut: recovery runs before readers start. A segment's name is refused to a reader only while the segment is being deleted.
- Buffer.DeliversAPrefix: not about states in which a segment was deleted before it was read; `DeliversAllButDeleted` is.
- Reader.LogReader.NextRecord: says nothing about records of a segment deleted before it was read, beyond never delivering one twice.
- Crash.AfterCrash: a crash that leaves other bytes than a part of each file's beginning (zeros after it, `Recovery.ZeroTailIsNotForeign`) is not followed through to the next run's deliveries.
- Buffer.CapHolds: does not bound a segment holding one record larger than the segment size, because the code lets it through.
- Policy.HeadTailDrops: says exactly when a flush drops and at least how many records; how many is given by `Flushed` only.
- Ordering.Stage.Push: the 64-bit arrival number does not wrap; with 2^32 slots in use only the result is promised.
- Pipeline.Clock.Push: promises the same; seed replies (`reply`), sweeps and `emit` are not part of the model.
- Event handlers, actor lookup and event contents: the pipeline's `process` is a step that records when it ran.
- Confirm.Window.Start: coalesced opens, path expansions and the handle map are not part of the model.
- The logical clock of the key map and the early map's generation are unbounded integers.
- Queue: the standard channel is a FIFO with atomic operations, and the counter is assumed not to overflow from the number of threads.
- Health: one counter of each kind stands for the rest; the per-thread CPU table, the structure sizes and the loss check are not modelled, nor is the order of the per-class list.
- Buckets.RateHolds: an upper bound only, because refills are truncated.
