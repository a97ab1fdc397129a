# Time-shift core: model and proofs

A time-shifting element keeps the recent part of an unbounded byte stream so that playback can pause and jump. Four parts
of it are modelled here; they share one coordinate system, the byte offset in the stream.

* **Ring and disk cache** (`src/flucache.c`). A fixed ring of 32 KiB slots holds a sliding window of the stream. Slots go
  EMPTY, PART, FULL, POP, RECYCLE; seeking flips them between FULL and RECYCLE. Buffers handed out come back at any time.
  When the ring overflows, a thread copies it to a file while the producer appends to the same file.
* **Index** (`src/flutsmemindex.c`, `src/flutsindex.c`). A list of entries and one ordered tree for each format, searched
  by a single descent.
* **Indexer** (`src/gsttimeshifttsindexer.c`). Finds PCRs in MPEG transport streams and notes time and offset.
* **Element and seeker** (`src/flutsbase.c`, `src/gsttimeshiftseeker.c`). The streaming loop, EOS, seeks, SEGMENTs, and the
  translation of times to bytes and back.

## How it is built

| file | holds |
|---|---|
| `Bytes.dfy` | bytes, files written at a position, unsigned 64-bit arithmetic |
| `CacheModel.dfy` | the cache as a value: every operation as a function, and the invariants |
| `RingProofs.dfy`, `DiskProofs.dfy`, `SeekProofs.dfy` | what each operation keeps; where seeks land |
| `Runs.dfy` | the step machine: producer, consumer, downstream, application, migrator; what safe runs keep |
| `Orderly.dfy` | what every run keeps, safe or not |
| `Delivery.dfy`, `Playback.dfy`, `Bounds.dfy`, `EndOfStream.dfy`, `Lifetime.dfy` | theorems over runs |
| `Underrun.dfy`, `Extent.dfy`, `Spoiled.dfy` | exactly which reloads do no harm, read off the state, and runs in which they do |
| `Reached.dfy` | runs that reach the inputs on which other exact conditions fail |
| `RingCache.dfy` | the cache as a class over an array of slots, proved method by method to refine `CacheModel` |
| `MemIndex.dfy`, `MemIndexSearch.dfy` | trees, the scan they must agree with, the descent, the index class |
| `TsIndexer.dfy` | clocks, PCR field, packet scan, the indexer class |
| `PacketScan.dfy` | what scan and indexer find, told by the fields of the packets |
| `Seeker.dfy` | both maps between time and offset, their meaning, the seeker class |
| `Element.dfy` | the element as a step machine and as a class over `ShifterCache` |
| `ElementRuns.dfy` | runs of the element: seeks accepted, restart after a seek, EOS |
| `Downstream.dfy` | what downstream gets of what the element takes out of its cache |
| `EndToEnd.dfy` | a seek by time through the whole chain |

The cache appears twice on purpose. `CacheModel` sees the ring in stream order, without positions, and carries the
theorems. `ShifterCache` has the fields, the array, the loops and the wrap-around of the C code; a ghost field `view` is
the value it stands for, and `Valid()` ties the two. The element and the seeker are done in the same way.

In a run, one step is one round of a push, one pop with its reload, one seek, one release, or one slot copied by the
migration thread. Push, pop and seek exclude each other through the flow lock of the element; releases and the migration
interleave at every step boundary.

There are two invariants. `Orderly` says that the ring is in order, that counts and places are right, and where the file is
read and written; every step keeps it, so contiguity, lifetime and the use of the class never depend on what a reload has
read. `Inv` adds that ring and file hold what was received; it is kept by steps whose reload is safe, and `WriteSafe` and
`PopSafe` are exactly those.

## What the code turned out to do

These are theorems, not impressions; the members are named in the table.

* After a plain overflow the read position stays 0. When the migration ends, the ring and the read position do not
  belong together, and the next reload that reads labels old bytes as new ones: on a ring of two slots or more the second
  pop does it, and a buffer with the first bytes of the stream is handed out as the one behind the ring
  (`MislabelledPop`). A pop is safe if and only if its reload reads nothing, as while the tail slot is still out, or reads
  are linked (`PopExact`, `PopSafeExact`). They are linked if and only if the ring held no whole slot when recording
  started (`LinkAfterMigration`); a seek in the file links them (`SeekDiskExact`). Offsets stay in order all the same
  (`RunAdjacent`, `DownstreamContiguous`).
* A push that finds the ring empty reloads it, during the migration too, from a file that is not complete yet, into slots
  that may not have been copied yet. The finished file is true, whatever the bytes are, if and only if the reload does not
  get as far as the slot the migrator looks at next, with three exceptions (`UnderrunExact`, `WriteSafeExact`). On a ring
  of any size that overflowed and was played out, every push can spoil the file for some bytes (`UnderrunIsReached`). In a
  recording started on an empty ring the migrator is ahead of the reads, and two slots' worth pushed at once make it write
  the second one in the place of the first (`EmptyStartSpoiled`).
* An explicit start with a PART slot copies that slot first, in front of older data (`CopyOrderExact`,
  `PartCopiedFirst`).
* When the consumer has caught up with a full ring, a ring seek is right only for the newest slot (`SeekRingExact`,
  `SeekWrapsWrong`).
* Offsets in the PART slot are accepted, and then ignored (`SeekAcceptedExact`). After an explicit start with nothing
  written since, offsets that were never received are accepted (`HasOffsetExact`, `UnreceivedAccepted`).
* Less than a slot behind a seek in the file is never read, drain or not (`SeekThenEndExact`, `ShortRestLost`). And
  playing to the end stalls, until something is pushed or sought, as soon as the last FULL slot is popped while the slot
  at the tail is still out (`PlayOutExact`).
* When downstream answers EOS, what the cache has is popped and thrown away. What comes after is sent without a SEGMENT,
  further on than downstream can know: exactly if the cache had something left then, and the loop finds something before
  a seek ends (`SentExact`, `SkipIsReached`).
* Seeks in bytes: right after an explicit start the upper bound of the file is not valid, and even a seek to two bytes
  before the start is accepted (`SeekAcceptedUnbounded`, `SeekBeforeStart`). After an overflow the bound is always valid
  (`HasExactly`, `SeekAcceptedRun`, `OverflowFiled`).
* At EOS while recording, what is only in the file may be given up (`EosExact`); and a seek forgets the EOS
  (`SeekForgetsEos`). If downstream answers with an error before upstream has ended, it is never told of the end, unless
  a seek comes in between (`ErrorThenEos`).
* The indexer searches on behind a PCR that is not due; if exactly 208 bytes are left there, they are taken for a packet
  without looking for the next one, and an offset can be noted at which no packet starts (`StrayNoted`, `NotedExact`).
* A seek lands up to a slot early. If that is before the first index entry and not byte 0, the SEGMENT gets no time
  (`TimeAtExact`, `TimeSeek`).
* A seek from the end without an entry a megabyte before it counts the missing time as -1 (`SeekEndShort`).
* Equal values in the index: an exact lookup returns the newest entry, a nearest one the earliest, because the tree keeps
  the old key and takes the new value (`InsertNodes`, `ScanMeaning`). So with entries of equal times, which a delta
  of 0 allows, a later time can map to an earlier offset: for every index of the indexer, times map to offsets in order
  if and only if no two entries are of one time (`SeekOrderExact`), and two packets with one PCR are such entries
  (`OrderIsLost`).
* A SEGMENT whose stop lies before the first entry loses its stop (`SegmentOrder`).
* Only a seek in the file marks the next buffer as a discontinuity (`SeekDiscont`).

Where comments and code disagree the code is followed: the number of slots is rounded down, not up
(`src/flucache.c:463-464`, `src/flucache.c:503`); the default delta of 500 is used as nanoseconds although the property
is in milliseconds (`src/gsttimeshifttsindexer.c:42`, `src/gsttimeshifttsindexer.c:164`,
`src/gsttimeshifttsindexer.c:204-206`); a buffer yields at most one index entry.

## Model

| member | source | states |
|---|---|---|
| EndToEnd.TimeSeek | src/gsttimeshiftseeker.c:215-293 | a seek by time all the way: the offset asked of the cache is the sync byte of a PCR packet; the first round of the loop after it sends a SEGMENT and a buffer that start at one byte `b` at or before it (within a slot, unless the offset was in the PART slot); on the way down the SEGMENT is put in times with base 0 and no stop, and both get one time, that of the last entry at or before `b`: at most the entry's, equal to it if `b` is the offset, and missing exactly when `0 < b <` first entry |
| EndToEnd.IndexerMeets | src/gsttimeshifttsindexer.c:418-476 | what `TimeSeek` asks of the index holds however the stream is cut into buffers and however much of it arrives between the seek and the SEGMENT |
| EndToEnd.SeekGoesDown | src/gsttimeshiftseeker.c:399-449 | a flushing SET seek in times, put in bytes by the seeker, makes the element seek to the offset of the entry exactly when the cache has it; a time before the first entry is refused |
| EndToEnd.OrderIsLost | src/gsttimeshifttsindexer.c:418-476 | two packets with one PCR and a delta of 0: the seek to their time goes to the second, the seek just past it to the first |
| EndToEnd.LandsAtOrBefore | src/flucache.c:914-1001 | with every buffer returned, a seek to an accepted offset never lands behind it: in its slot if the ring holds it, on the very byte if only the file does, and it does nothing if the offset is in the PART slot |
| EndToEnd.TimeSeekHappens | src/flutsbase.c:549-613 | what `TimeSeek` asks for is met: one packet of any PID and PCR goes through indexer and element, playback is sent back to time 0, and upstream ends |
| EndToEnd.RestartReached | src/flutsbase.c:340-372 | the element of the row above is reached by a chain and the first half of a seek |
| EndToEnd.PcrPacketCarries | src/gsttimeshifttsindexer.c:338-378 | a packet with nothing but a PCR is taken for one on its own PID and on no other, and its base is read back; for random access points only if it is the first |
| Runs.StepInv | src/flucache.c:606-1001 | every step of producer, consumer, downstream, application and migrator whose reload is safe keeps ring and file true to the stream; `PushExact` and `PopExact` show that no weaker guard on reloads would do |
| Runs.RunInv | src/flucache.c:606-1001 | over every interleaving the ring is a contiguous, ordered, true cover of `[l_rb_offset, h_rb_offset)`, the PART slot the rest, and the completed file the stream from `l_dk_offset` |
| Runs.StartInv | src/flucache.c:469-512 | a new cache satisfies the invariant |
| Runs.WriteInv | src/flucache.c:806-856 | one round of a push whose reload is safe keeps the invariant over the stream with exactly the bytes it took, and does not move the consumer |
| Runs.PushInv | src/flucache.c:806-856 | a whole push whose reload is safe, in the ring, overflowing in the middle, or recording, adds exactly its bytes to what the cache holds and does not move the consumer |
| Runs.TakeOutInv | src/flucache.c:746-794 | a pop whose reload is safe, drain or not, hands out exactly the next piece of the stream and moves the consumer to its end, or hands out nothing and does not move it |
| Runs.LetGoInv | src/flucache.c:143-151 | a buffer coming back keeps the invariant and the place of the consumer |
| Runs.SeekToInv | src/flucache.c:914-1001 | a permitted seek keeps the invariant and the link of the read position |
| Runs.RecordInv | src/flucache.c:649-692 | starting to record with no PART slot keeps the invariant |
| Runs.CopyInv | src/flucache.c:606-647 | a step of the migration thread keeps the invariant |
| OrderlyRuns.StepOrderly | src/flucache.c:606-1001 | every step, whatever its reload reads, keeps the ring a contiguous stretch with the FULL slots from the head on and the counts right, and the file positions in bounds; only pops and seeks move the consumer |
| OrderlyRuns.TakeOutOrderly | src/flucache.c:746-794 | whatever reloads have read, a pop hands out the buffer that starts at the place of the consumer and moves it to its end, and it finds one exactly when the count or a drained PART slot says so |
| OrderlyRuns.RunAdjacent | src/flucache.c:711-856 | over any run without seeks, whatever reloads have read, the popped buffers lie one after the other from where the consumer stood to where it stands |
| RingProofs.RecycleTailGood | src/flucache.c:562-576 | recycling drops at most the oldest slot, raises `l_rb_offset` to its end, and never touches what the consumer has still to see |
| RingProofs.WriteSlotGood | src/flucache.c:98-116 | writing to the tail slot keeps the ring true to the longer stream, whether or not the slot becomes FULL |
| RingProofs.PushRoundGood | src/flucache.c:828-849 | one loop round keeps the ring true to the stream with what it took; the rest is exactly what it did not take |
| RingProofs.RoundFills | src/flucache.c:828-844 | a round takes all of the data, or as much as fills the slot |
| RingProofs.OverflowGood | src/flucache.c:845-849 | when no slot is free the ring is full to the last byte, so recording starts in a good state and takes all the data |
| RingProofs.TakeHeadGood | src/flucache.c:767-790 | handing out the head keeps the ring and moves the consumer to the end of that slot |
| RingProofs.FinishPartGood | src/flucache.c:759-765 | a drain turns the PART slot into the newest FULL one without moving the consumer |
| RingProofs.NonEmptyPops | src/flucache.c:746-794 | after every step, safe or not, a pop returns a buffer if and only if `fslots > 0`; a draining one if and only if `fslots > 0` or the PART slot has content |
| RingProofs.DrainedAtTail | src/flucache.c:759-765 | a drain takes the PART slot when nothing else is left, and not before; what was drained stays in the slot at the tail, which is not free any more |
| RingProofs.ReloadCountMeans | src/flucache.c:711-721 | a reload goes round once for a drain, and else as often as the number of slots not FULL has binary digits |
| RingProofs.BitStorageMeans | src/flucache.c:717-721 | the number of rounds of a reload is the length in binary of the number of free slots |
| DiskProofs.StartRecordingDisk | src/flucache.c:649-692 | recording starts with `m_dk_offset` at the oldest ring byte and the file laid out for the migration |
| DiskProofs.DiskWriteDisk | src/flucache.c:359-393 | an append during or after the migration keeps everything the file already holds and adds its bytes at their place |
| DiskProofs.NextToCome | src/flucache.c:606-630 | the slot the migrator looks at is EMPTY or holds the very next piece of the stream, and so it goes on at the slot after it, around the end of the array and while the tail moves |
| DiskProofs.CopyDisk | src/flucache.c:606-630 | copying a slot extends the migrated prefix and leaves the producer's part true |
| DiskProofs.FinishDisk | src/flucache.c:636-647 | when all slots are copied, prefix and appended part join to the stream from `m_dk_offset`; reads are then linked if and only if the recording began on an empty ring |
| DiskProofs.ReadsNextPiece | src/flucache.c:395-441 | with the link in place a read from the file is exactly the next piece of the stream, and never goes beyond it |
| DiskProofs.WholeReloadGood | src/flucache.c:711-734 | a safe reload, before or after the end of the migration, keeps ring, file, link and the place of the consumer |
| SeekProofs.SeekRingGood | src/flucache.c:939-978 | a seek in the ring changes states only; the FULL slots stay one stretch from the head if and only if `KeepsOrder` |
| SeekProofs.SeekRingLands | src/flucache.c:939-978 | a seek lands on the slot with the offset, or behind the first slot still out on the way back, or changes nothing when the ring is full and caught up with and its oldest slot, the one asked for, is still out |
| SeekProofs.SeekRingExact | src/flucache.c:939-978 | with all buffers returned, head is the slot with the offset and exactly the slots from it on are FULL, if and only if something is left to pop, a slot is free, or the offset is in the newest slot |
| SeekProofs.SeekAcceptedExact | src/flucache.c:866-1001 | outside disk playback, with all buffers returned, an accepted offset is landed on if and only if it is below `h_rb_offset` and something is left to pop, a slot is free, or it is in the newest slot; one not below `h_rb_offset` is accepted and changes nothing |
| SeekProofs.SeekClosest | src/flucache.c:914-937 | an offset out of bounds is sought as the closest one within; behind the ring, outside disk playback, nothing happens |
| SeekProofs.SeekDiskExact | src/flucache.c:980-996 | a seek in the file is sound if and only if it does not go beyond the stream, and then the next pop starts at the very byte and the read position is linked |
| SeekProofs.HasOffsetExact | src/flucache.c:866-887 | in disk playback only received offsets are accepted, if and only if `h_dk_offset` is no longer the invalid offset |
| Bounds.RunBound | src/flucache.c:359-393 | over every run `h_dk_offset` is the number of bytes received if something was written to the file, and the invalid offset if not |
| Bounds.HasExactly | src/flucache.c:866-887 | over every run: until the migration is over the cache has exactly the offsets from `l_rb_offset` to the bytes received; from then on those from the `l_rb_offset` at the start of the recording, up to the bytes received if recording began with an overflow or something was pushed since, and else without bound |
| Delivery.TilesMeaning | src/flucache.c:746-794 | what "in place" means: concatenated the buffers are the stretch of the stream, and each starts where the one before it ended |
| Delivery.RunDelivers | src/flucache.c:746-856 | over any seek-free interleaving with safe reloads, overflow and playback from the file included, the popped buffers tile the stream from where the consumer stood to where it stands |
| Delivery.DrainRuns | src/flucache.c:746-794 | popping until NULL can always be done, needs no seek, and ends |
| Delivery.Lossless | src/flucache.c:746-856 | any run of pushes, pops and releases without seek or overflow, then draining until NULL: the popped bytes are exactly the pushed bytes, in order |
| Delivery.SeekThenPlay | src/flucache.c:939-978 | a ring seek followed by pops, recording or not, as long as the file is not played, delivers the stream from the start of the slot with the offset to the end of the ring, without gap or repeat |
| Delivery.SeekThenRun | src/flucache.c:711-1001 | after a ring seek in any mode, playback from the file included, and over any later seek-free run, the popped buffers tile the stream from the start of the slot with the offset |
| Delivery.RunDiscont | src/flucache.c:781-784 | without seeks exactly the first buffer popped is marked as a discontinuity, if one was asked for, whatever reloads have read |
| Delivery.FirstDiscont | src/flucache.c:781-784 | from the start on, without seeks, the first buffer is marked and no other |
| Delivery.SeekDiscont | src/flucache.c:980-996 | a seek asks for a discontinuity if and only if it goes to the file |
| Playback.RecordingIsComplete | src/flucache.c:606-692 | whatever happens during the migration, as long as reloads are safe, the finished file is the stream from the `l_rb_offset` at the start of the recording, and `l_dk_offset` is that offset |
| Playback.StepKeepsBase | src/flucache.c:606-692 | no step, safe or not, moves where the file begins, or undoes a finished migration |
| Playback.MigrationEnds | src/flucache.c:606-647 | the migration can always go on, and ends after one step for each slot and one more |
| Playback.CopyOrderExact | src/flucache.c:606-630 | the migrator, which starts at the tail, puts every slot in its place if and only if no slot is PART or that slot is all there is |
| Playback.LinkAfterMigration | src/flucache.c:606-692 | whatever happens during the migration, unsafe reloads included, it leaves the read position linked if and only if the ring held no whole slot when recording started |
| Playback.ReloadLabel | src/flucache.c:711-734 | a reload labels what it reads with its true offset if and only if the link holds |
| Playback.RunKeepsPlaying | src/flucache.c:711-856 | in linked disk playback every run is safe and keeps `l_dk_offset + r_dk_pos == h_rb_offset` and `w_dk_pos == h_offset - l_dk_offset` |
| Playback.DiskPlayback | src/flucache.c:980-996 | after a file seek to `x` and any run of pushes, pops and releases, the popped buffers are the true pieces of the stream from exactly `x` on, and pops and pushes stay possible |
| Underrun.UnderrunExact | src/flucache.c:606-856 | a push finds the ring empty during the migration: for every such state, on rings of any size, the finished file is the stream, whatever the bytes, if and only if the reload spares what the migrator has still to look at |
| Underrun.PushExact | src/flucache.c:806-826 | a push while recording keeps ring and file true, whatever the bytes, if and only if its reload reads nothing or is linked, and spares the migrator |
| Underrun.PopExact | src/flucache.c:746-794 | a pop after the migration keeps ring and file true, whatever the bytes, if and only if its reload reads nothing or is linked |
| Extent.ExtentExact | src/flucache.c:562-734 | how many slots a reload reads into and how many it changes, in closed form: rounds, slots EMPTY or let go from the tail on, and pieces between read and write position |
| Extent.WriteSafeExact | src/flucache.c:806-826 | a push that reloads is safe if and only if those numbers stay below the place of the migrator, or it is done, or stands at the tail with all copied; and reads are linked or there are none |
| Extent.PopSafeExact | src/flucache.c:746-794 | a pop after the migration is safe if and only if there is nothing to pop, reads are linked, the tail slot is still out, or too little is left to read |
| Underrun.SparedFile | src/flucache.c:606-734 | a reload that spares the migrator leads to a true file, even one that reads the wrong bytes into the ring |
| Underrun.FinishWrites | src/flucache.c:606-647 | the finished file is what was there with the slots still to come written over it, one after the other |
| Spoiled.UnderrunIsReached | src/flucache.c:806-856 | a ring of any size is filled, overflows and is played out before the migrator has moved: then the reload of every push takes slots not copied yet, which spoils the file for some bytes |
| Spoiled.EmptyStartSpoiled | src/flucache.c:606-856 | on every ring of two slots or more: recording starts on the empty ring, the migrator passes one slot, two slots' worth `a + b` are pushed; the finished file is `b + b`, true if and only if `a == b` |
| Spoiled.MislabelledPop | src/flucache.c:606-794 | on every ring of two slots or more: fill, overflow, copy, pop, release; the next pop is unsafe, and after the rest of the ring the buffer labelled with the first offset behind it holds the first slot of the stream, right if and only if the stream repeats itself there |
| Reached.PartCopiedFirst | src/flucache.c:606-692 | on every ring of two slots or more: a slot and a part are pushed and the recording is started; the finished file is the part and then the slot |
| Reached.SeekWrapsWrong | src/flucache.c:939-978 | on every ring of two slots or more: filled and played out; a seek to its start, which is accepted, leaves the FULL slots in two stretches |
| Reached.UnreceivedAccepted | src/flucache.c:866-887 | on every ring: a recording started on the empty ring and copied; every offset is accepted though nothing was received |
| Reached.ShortRestLost | src/flucache.c:711-734 | the same, then less than a slot is pushed and the start of it sought: nothing can be popped, drain or not |
| Reached.SeekBeforeStart | src/flutsbase.c:525-613 | the same for the element: a seek to two bytes before the start is accepted |
| EndOfStream.PlayOutExact | src/flucache.c:711-794 | pops from the file and releases in any order until NULL: every byte from the next offset to the end of the stream was handed out if and only if there was something to pop or nothing to read at the start, and no pop took the last FULL slot while the slot at the tail was out |
| EndOfStream.DiskDrainExact | src/flucache.c:746-794 | with each buffer let go before the next pop, draining in disk playback delivers every byte from the next offset on if and only if something was ready to pop, or nothing was left to read |
| EndOfStream.SeekDiskFills | src/flucache.c:980-996 | a file seek fills a slot if and only if a whole slot's worth lies ahead |
| EndOfStream.PushRefills | src/flucache.c:819-826 | a push that finds the ring played out gives the consumer something to pop if and only if the slot at the tail has come back and a whole slot's worth lies ahead |
| EndOfStream.SeekThenEndExact | src/flucache.c:711-734 | a file seek, then pops and releases in any order until NULL, delivers exactly the stream from there if and only if it is a slot or more before the end, or at it, and no pop took the last FULL slot while the slot at the tail was out |
| EndOfStream.SeekThenDrainExact | src/flucache.c:711-734 | with each buffer let go before the next pop the latter never happens on a ring of two slots or more |
| Lifetime.StepOut | src/flucache.c:76-151 | the buffers out: a pop adds the one handed out, a release takes one away, every other keeps its very bytes whatever is pushed, recycled, reloaded, safe or not, or migrated; the reference count moves in step |
| Lifetime.RunKeepsOut | src/flucache.c:76-151 | over any run in which nobody lets go of it, whatever reloads have read, a buffer that is out stays out with the very same bytes |
| Lifetime.RunKeepsTrue | src/flucache.c:76-151 | and as long as reloads are safe they are the piece of the stream at its offset |
| Lifetime.RunRefs | src/flucache.c:521-560 | in any run the reference count is the owner, plus the buffers out, plus one while the migration thread lives |
| Lifetime.FreedExactly | src/flucache.c:521-560 | in any run ring memory is given back, the count reaches zero, exactly when the owner has let go, every buffer has come back and the migration thread has ended |
| Lifetime.FreedOnce | src/flucache.c:521-560 | once the owner has let go the count never rises, and at zero no buffer can come back and no slot be copied: it is reached once |
| RingCache.ShifterCache.constructor | src/flucache.c:469-512 | a new cache represents the empty ring of `size / 32768` slots, valid and intact |
| RingCache.ShifterCache.RecycleTail | src/flucache.c:562-576 | on the array, what `CacheModel.RecycleTail` does to the value; slots that are out stay untouched |
| RingCache.ShifterCache.WriteTail | src/flucache.c:98-116 | memory, write pointer, state and tail come to hold the longer PART slot, or the new FULL one |
| RingCache.ShifterCache.DiskWrite | src/flucache.c:359-393 | append to the file and move `h_offset` and `h_dk_offset` |
| RingCache.ShifterCache.StartRecording | src/flucache.c:649-692 | set the disk offsets and start the migration once, at the tail |
| RingCache.ShifterCache.CopySlot | src/flucache.c:606-630 | one round of the migration loop, at the slot of the array the thread stands at; the cache stays valid, and intact if it was |
| RingCache.ShifterCache.FinishMigration | src/flucache.c:636-647 | the end of the migration thread; the cache stays valid, and intact if it was |
| RingCache.ShifterCache.ReadPossible | src/flucache.c:395-420 | whether a read from the file would succeed, unsigned difference included |
| RingCache.ShifterCache.ReadTail | src/flucache.c:421-441 | the tail slot takes the piece at the read position and the tail moves, while a migration under way keeps to its slot |
| RingCache.ShifterCache.Reload | src/flucache.c:711-734 | the loop refills as many slots as the bit count of the free ones allows, and stops at the first that cannot be read |
| RingCache.ShifterCache.PushOnce | src/flucache.c:828-849 | one round of a push; what it did not take is a suffix of the data |
| RingCache.ShifterCache.Push | src/flucache.c:806-856 | the stream grows by exactly the data, the array represents the value after the push, slots that are out stay untouched; the cache stays valid whatever is reloaded, and intact if the push is safe |
| RingCache.ShifterCache.FinishPart | src/flucache.c:759-765 | a PART head becomes FULL where it is |
| RingCache.ShifterCache.Pop | src/flucache.c:746-794 | the buffer handed out and the cache after it are those of the value; slots already out stay untouched; the cache stays valid whatever is reloaded, and intact if the pop is safe |
| RingCache.ShifterCache.Release | src/flucache.c:143-151 | only the state of the one slot and the reference count change; the cache stays valid, and intact if it was |
| RingCache.ShifterCache.HasOffset | src/flucache.c:866-887 | the answer is that of the value |
| RingCache.ShifterCache.Rollback | src/flucache.c:578-590 | RECYCLE becomes FULL and is counted; true if the slot is FULL afterwards |
| RingCache.ShifterCache.Rollforward | src/flucache.c:592-604 | FULL becomes RECYCLE and is no longer counted |
| RingCache.ShifterCache.SeekAhead | src/flucache.c:948-957 | the walk forward ends, at the slot with the offset |
| RingCache.ShifterCache.SeekBehind | src/flucache.c:958-974 | the walk back ends, at the slot with the offset or behind one still out |
| RingCache.ShifterCache.SeekInRing | src/flucache.c:939-978 | the three cases of a seek in the ring, told apart by the offset of the head slot alone |
| RingCache.ShifterCache.Flush | src/flucache.c:443-457 | every slot is blank again |
| RingCache.ShifterCache.SeekInFile | src/flucache.c:980-996 | forget the ring, set the read position, refill |
| RingCache.ShifterCache.Seek | src/flucache.c:914-1001 | clamping and choice between ring and file are those of the value; valid, and intact if it was, if the seek is permitted |
| RingCache.FslotsCountsFull | src/flucache.c:1011-1021 | in every valid cache, whatever was reloaded, `fslots` is the number of slots in state FULL, and if it is not zero the head slot is FULL |
| Element.StepKeeps | src/flutsbase.c:184-613 | every step of chain, EOS, SEGMENT, loop, push return whatever the answer, seek, release, recording and migration keeps the order of the element, and if its reloads are safe the truth of its bytes |
| Element.DownstreamContiguous | src/flutsbase.c:184-337 | over every interleaving, whatever reloads have read, each SEGMENT starts where the next buffer does, between SEGMENTs every buffer taken out, sent or thrown away, starts where the one before it ended, and the loop fails only if downstream does; as long as reloads are safe every buffer is true |
| Element.DiscardOrderly | src/flutsbase.c:233-250 | after an EOS from downstream the cache is popped, in order, until it has nothing |
| Downstream.SentExact | src/flutsbase.c:229-252 | over every interleaving what downstream gets is contiguous unless, and only unless, it answers EOS while the cache has something left and later the loop finds something to send, no seek having ended in between |
| Downstream.StepHides | src/flutsbase.c:184-337 | one act hides bytes exactly when it throws some away, and sends after hidden ones exactly when the loop sends while there are some |
| Downstream.SentContiguous | src/flutsbase.c:184-252 | as long as downstream does not answer EOS, it is contiguous, whatever reloads have read |
| Downstream.SkipIsReached | src/flutsbase.c:184-284 | two slots and a part are pushed, downstream answers EOS to the first, upstream ends: the second slot is thrown away and the part sent right after the first |
| Element.SeekAcceptedReceived | src/flutsbase.c:525-572 | with the upper bound of the file valid, a seek is accepted if and only if it flushes, is in bytes, relative to start or end, and asks for a byte still held and already received |
| ElementRuns.SeekAcceptedRun | src/flutsbase.c:525-572 | over every run of the element: a seek is accepted if and only if it flushes, is in bytes, relative to start or end, and asks for a byte still held and already received; only if the file is played and nothing was written to it is there no upper bound |
| ElementRuns.OverflowFiled | src/flucache.c:845-849 | over every run recording is on exactly if somebody has asked for it or something was written to the file; so if nobody has, the exception above never happens |
| ElementRuns.SeekRestarts | src/flutsbase.c:587-613 | the end of a seek sets the loop going whatever had stopped it, an EOS or an error included: as soon as there is something to pop the loop can go round and sends SEGMENT and buffer for the landing place; if upstream has ended again and nothing is left, EOS |
| ElementRuns.SeekReopens | src/flutsbase.c:596-606 | after a seek data is taken again, whatever had been refused, another seek can begin, and downstream is not told of the end unless upstream ends again |
| ElementRuns.TakesData | src/flutsbase.c:340-392 | over every run data is refused exactly if upstream has ended and no seek has since, or downstream has answered EOS and neither a seek has ended nor a SEGMENT come since; else all of it is taken |
| ElementRuns.SeekIsSilent | src/flutsbase.c:577-591 | from the flush with which a seek begins to its end nothing is sent, whatever the loop was doing and whatever else happens, not even the EOS |
| ElementRuns.SeekCanEnd | src/flutsbase.c:587-596 | once the push under way and all buffers have come back, a seek can end unless it would break the order of the ring |
| ElementRuns.LoopGoesOn | src/flutsbase.c:269-337 | after each turn of the loop and each push it goes on if and only if the result is OK and the EOS was not sent |
| ElementRuns.RunLives | src/flutsbase.c:252-337 | over every run downstream gets nothing after an EOS until it is flushed, and a loop that has not sent the EOS runs, unless a seek is under way or downstream has answered something worse than EOS |
| ElementRuns.ErrorThenEos | src/flutsbase.c:318-337 | an error from downstream is the last word until a seek ends: EOS follows it if and only if upstream had ended before it, and nothing else does |
| ElementRuns.EosReached | src/flutsbase.c:252-262 | once upstream has ended, a downstream that takes what it is sent gets the rest, and then the EOS, in finitely many rounds |
| Element.SeekAcceptedUnbounded | src/flutsbase.c:525-572 | without, a seek to two bytes before the start is accepted |
| Element.ActivatedInv | src/flutsbase.c:760-790 | a just activated element satisfies the invariant |
| Element.FirstAfterSeek | src/flutsbase.c:549-613 | whatever arrives in between, the first thing sent after a seek is a SEGMENT at the place the cache has landed, with the buffer that starts there |
| Element.EosExact | src/flutsbase.c:254-266 | when EOS is sent everything has been sent or thrown away if and only if the ring reaches the end of the stream; without recording it always does |
| Element.SeekForgetsEos | src/flutsbase.c:598-603 | after a seek downstream is never told of the end again unless upstream ends again |
| Element.FluTsBase.constructor | src/flutsbase.c:760-790 | the element with its cache, ready to run |
| Element.FluTsBase.ChainData | src/flutsbase.c:340-392 | data is refused exactly after EOS from upstream or downstream, and otherwise all of it goes to the cache |
| Element.FluTsBase.ReceiveEos | src/flutsbase.c:445-455 | the EOS of upstream is remembered |
| Element.FluTsBase.ReceiveSegment | src/flutsbase.c:456-464 | a SEGMENT of upstream makes it acceptable again |
| Element.FluTsBase.LoopOnce | src/flutsbase.c:288-337 | one round of the loop up to the push: SEGMENT if needed, then the buffer, or EOS |
| Element.FluTsBase.PushDone | src/flutsbase.c:231-337 | a flush that came meanwhile wins over the answer; EOS throws away all the cache has; an error stops the loop and, after EOS from upstream, is followed by EOS |
| Element.FluTsBase.SeekOffset | src/flutsbase.c:525-547 | the offset asked for, from the start or the end, in unsigned arithmetic |
| Element.FluTsBase.SeekStart | src/flutsbase.c:549-591 | a seek that is not accepted changes nothing; otherwise the loop is flushed and the offset kept |
| Element.FluTsBase.SeekFinish | src/flutsbase.c:593-607 | the cache is repositioned and the element restarted |
| MemIndex.CompareExact | src/flutsmemindex.c:208-221 | the comparison orders two values rightly if and only if their difference fits 64 bits, which it does below 2^62 |
| MemIndex.InsertNodes | src/flutsmemindex.c:223-245 | an insertion changes the node of its value only: an old key is kept, the value becomes the new entry |
| MemIndex.InsertStands | src/flutsmemindex.c:223-264 | a tree that stands for the list stands for the list with the new entry in front |
| MemIndex.RotateStands | src/flutsmemindex.c:223-245 | what a tree stands for does not depend on its shape: a rotation, as balancing does, changes nothing |
| MemIndex.ScanMeaning | src/flutsmemindex.c:329-371 | what a scan finds, entry by entry: the newest of an exact match, else the earliest of the nearest value on the side asked for, and nothing exactly when no entry fits |
| MemIndexSearch.VisitKeeps | src/flutsmemindex.c:293-327 | one comparison of the descent keeps what is known of the candidates, for the child it goes to |
| MemIndexSearch.Descend | src/flutsmemindex.c:293-327 | one descent finds the value if the tree has it, and otherwise leaves the greatest smaller and the least larger key as candidates |
| MemIndexSearch.LookupTree | src/flutsmemindex.c:329-371 | descent and choice of candidate answer what a scan of the list answers |
| MemIndexSearch.FluTsIndex.constructor | src/flutsmemindex.c:134-139 | an empty index |
| MemIndexSearch.FluTsIndex.GetId | src/flutsindex.c:212-258 | the index has a writer id from its first use on |
| MemIndexSearch.FluTsIndex.AddAssociationv | src/flutsindex.c:273-300 | the entry is put in front of the list, and the trees of all its formats stand for the longer list; an empty one is refused |
| MemIndexSearch.FluTsIndex.GetAssocEntry | src/flutsmemindex.c:329-371 | after any sequence of additions a lookup by format is a scan of the list, and is nothing for an unknown format |
| MemIndexSearch.EntryAssocMap | src/flutsindex.c:388-405 | the loop finds the first association of a format |
| MemIndexSearch.AssocMapAt | src/flutsindex.c:388-405 | in an entry laid out for the index this is the value the trees are ordered by |
| TsIndexer.ToGstGrows | src/gsttimeshifttsindexer.c:49-55 | later ticks are later times, by at least 11111 ns for each tick |
| TsIndexer.ClockRoundTrip | src/gsttimeshifttsindexer.c:49-55 | ticks to time and back loses nothing if and only if the count is a multiple of nine, and else exactly one tick |
| TsIndexer.PcrRoundTrip | src/gsttimeshifttsindexer.c:363-370 | decoding the field of ISO/IEC 13818-1 section 2.4.3.4 gives exactly the encoded 33-bit base, whatever extension and reserved bits |
| TsIndexer.IsNextSyncValid | src/gsttimeshifttsindexer.c:308-320 | true if and only if a sync byte follows, inside the buffer, at one of the four packet sizes |
| TsIndexer.ScanFrom | src/gsttimeshifttsindexer.c:381-416 | a find lies inside the buffer, more than 208 bytes before its end, and is a parsed PCR |
| TsIndexer.GetPcr | src/gsttimeshifttsindexer.c:381-416 | the loop finds what the scan finds, and moves data and offset to it |
| PacketScan.PacketParsed | src/gsttimeshifttsindexer.c:338-378 | for a packet encoded field by field as in ISO/IEC 13818-1 sections 2.4.3.2 to 2.4.3.5: a PCR is read if and only if adaptation field and PCR are flagged, the PID is the tracked one, the length is not 0 and, if random access points are asked for and it is not the first, it is one; and it is the encoded base |
| PacketScan.AlignedScan | src/gsttimeshifttsindexer.c:381-416 | in a buffer of packets, wherever in it they begin, the scan stops at the first PCR packet among those starting before the last 208 bytes, passing none by, or reports none |
| PacketScan.SizedScan | src/gsttimeshifttsindexer.c:308-320 | for packets of 188, 192, 204 and 208 bytes, once in step, the scan goes packet by packet |
| PacketScan.PacketsFound | src/gsttimeshifttsindexer.c:381-416 | a buffer cut anywhere: rest of a packet, whole packets, beginning of one; if nothing in the rest looks like a packet, that is, no sync byte has another at one of the four distances, the scan finds the first PCR told by the fields of a packet that starts before the last 208 bytes, or nothing exactly when none tells one |
| PacketScan.OnePacketFound | src/gsttimeshifttsindexer.c:390-393 | a buffer of 188 to 208 bytes is taken for one packet |
| PacketScan.NothingTold | src/gsttimeshifttsindexer.c:418-476 | packets of other PIDs, or that tell no PCR for another reason, add nothing to the index, whatever they contain |
| PacketScan.NotedExact | src/gsttimeshifttsindexer.c:418-476 | of the packets of a buffer that start before its last 208 bytes exactly the first one is noted whose PCR is wanted: any if there is no entry yet or random access points are asked for, and else one the delta or more after the last entry; its mark is its place in the stream and its time since the first PCR |
| PacketScan.StrayNoted | src/gsttimeshifttsindexer.c:387-393 | what is left behind a PCR that is not due, if it is exactly 208 bytes, is taken for a packet: two buffers after which the index holds an offset at which no packet starts |
| TsIndexer.FirstDueFound | src/gsttimeshifttsindexer.c:418-476 | what is noted is a PCR packet on the tracked PID, and due |
| TsIndexer.CollectGood | src/gsttimeshifttsindexer.c:418-476 | one buffer keeps the marks sound, spaced and counted |
| TsIndexer.IndexSound | src/gsttimeshifttsindexer.c:418-476 | however the stream is cut: every entry is the absolute position of the sync byte of a PCR packet with that PCR's time since the first, offsets strictly increase, times by at least the delta, and the current offset is the number of bytes seen |
| TsIndexer.IndexGrows | src/gsttimeshifttsindexer.c:418-476 | entries are only added, and only at offsets not seen before |
| TsIndexer.Indexer.AddIndexEntry | src/gsttimeshifttsindexer.c:322-336 | the index lists the new mark in front of the others |
| TsIndexer.Indexer.FindDue | src/gsttimeshifttsindexer.c:430-470 | the loop finds the first PCR that is due, reads nothing outside the buffer, and ends |
| TsIndexer.Indexer.CollectTime | src/gsttimeshifttsindexer.c:418-476 | the indexer after a buffer is that of the specification, and index and marks agree |
| Seeker.OffsetAtMeans | src/gsttimeshiftseeker.c:352-397 | a time maps to the offset of the latest entry at or before it, and to -1 if and only if there is none |
| Seeker.BeforeOffsetMeans | src/gsttimeshiftseeker.c:215-249 | an offset maps to the time of the last entry at or before it, and to nothing if and only if there is none |
| Seeker.MarksGrow | src/gsttimeshifttsindexer.c:418-476 | what the indexer guarantees is what both maps need |
| Seeker.SeekRoundTrip | src/gsttimeshiftseeker.c:215-249 | time to offset and back: any byte from the first entry to the offset maps back to no later a time, though the index has grown; the offset itself, and with a positive delta only it, maps back exactly |
| Seeker.TimeAtExact | src/gsttimeshiftseeker.c:215-249 | a byte has a time if and only if it is byte 0 or an entry lies at or before it |
| Seeker.SeekEndExact | src/gsttimeshiftseeker.c:321-350 | a seek from the end is one from the time of the last entry a megabyte or more before it, and to the end itself goes to that entry |
| Seeker.SeekEndShort | src/gsttimeshiftseeker.c:321-397 | while there is no such entry it fails if and only if the distance is not positive, and else becomes a seek from the start, one nanosecond early |
| Seeker.SegmentExact | src/gsttimeshiftseeker.c:251-291 | a SEGMENT in bytes becomes one in times with base 0, still a reset or not; start and time are the stamp of a buffer at its start, that is the time of the last entry at or before it, and so is the stop if there is one |
| Seeker.SeekExact | src/gsttimeshiftseeker.c:399-449 | a seek in times becomes one in bytes in the same direction; each end that is not set stays as it is, each that is becomes the offset of the latest entry at or before its time, counted from the start or from the last entry a megabyte before the end |
| Seeker.SegmentOrder | src/gsttimeshiftseeker.c:251-291 | a SEGMENT in order stays in order and starts at its own time; its stop is lost if and only if it comes, not at byte 0, before the first entry |
| Seeker.SeekOrderExact | src/gsttimeshiftseeker.c:352-397 | for every index the indexer makes with a delta of 0 or more: later times map to no earlier offsets, for all pairs of times, if and only if no two entries are of one time, as with a positive delta |
| Seeker.TimeShiftSeeker.BytesToStreamTime | src/gsttimeshiftseeker.c:214-249 | the time of an offset, with the special case of byte 0 |
| Seeker.TimeShiftSeeker.GetLastTime | src/gsttimeshiftseeker.c:321-350 | the time a megabyte before the end, or none |
| Seeker.TimeShiftSeeker.SeekTo | src/gsttimeshiftseeker.c:352-397 | the offset of a time, from the start or the end; -1 without index or entry |
| Seeker.TimeShiftSeeker.SegmentEvent | src/gsttimeshiftseeker.c:251-291 | only a resetting SEGMENT in bytes is changed, and only with an index; then the next buffer is to be stamped |
| Seeker.TimeShiftSeeker.TransformIp | src/gsttimeshiftseeker.c:502-514 | exactly the first buffer after such a SEGMENT is stamped, with the time of its own offset |
| Seeker.TimeShiftSeeker.TransformSeek | src/gsttimeshiftseeker.c:399-449 | only a forward seek in times is changed, and only with an index: each end that is set becomes a SET in bytes |

## Left out

Guards on members above, and what they exclude:

- Runs.StepInv: reloads must be safe, `WriteSafe` and `PopSafe`, which `PushExact` and `PopExact` show to be exactly when they are; no push after a drain, and the total below the offset reserved as invalid; recording is started with no PART slot, see `CopyOrderExact`; a ring seek keeps order, see `SeekRingExact`; a file seek needs all buffers returned, as the element ensures by flushing, and an offset that was received.
- Runs.RunInv: the guards of `StepInv`, at every step; `RunKeepsPlaying` shows that the link, once there, never has to be asked for again.
- OrderlyRuns.StepOrderly: the guards of `StepInv` but for the safety of reloads, which is asked for only once the stream is so long, half of 64 bits, that labels put off by a reload could reach the invalid offset.
- Runs.WriteInv: the guards of `StepInv` on pushes.
- Runs.PushInv: as `WriteInv`.
- Runs.RecordInv: no PART slot and no drain before an explicit start; a ring that holds nothing but a PART slot is copied in order, see `CopyOrderExact`, but a reload may take that slot before it is copied, and none of this is followed further.
- Runs.SeekToInv: the guard on seeks of `StepInv`.
- Delivery.Lossless: playing out of the ring; `PlayOutExact` says when the same holds from the file.
- Delivery.SeekThenPlay: playing out of the ring, recording or not; `SeekThenRun` and `DiskPlayback` are its counterparts for playback from the file.
- EndOfStream.DiskDrainExact: a ring of two slots or more, and each buffer let go before the next pop; `PlayOutExact` is the general case.
- EndOfStream.SeekThenDrainExact: as `DiskDrainExact`; `SeekThenEndExact` is the general case.
- Underrun.UnderrunExact: the migrator finishes with nothing else in between; true for all bytes, since single bytes may be alike by chance.
- RingCache.ShifterCache.constructor: a size of one slot or more; with less the C code has no slot to work on.
- RingCache.ShifterCache.Push: no push after a drain, and the total below the offset reserved as invalid.
- Element.DownstreamContiguous: one activation, no flush from the sink side, no failing event; the guards of `StepOrderly` for the cache, and for true buffers those of `StepInv`.
- Element.FluTsBase.PushDone: `Error` stands for every answer worse than EOS and for not being linked.
- MemIndexSearch.Descend: values below 2^62 in magnitude, see `CompareExact` for exactly when larger ones are ordered rightly.
- MemIndexSearch.FluTsIndex.AddAssociationv: one fixed layout of formats, as the indexer uses; one writer, the index itself; always writable.
- MemIndexSearch.FluTsIndex.GetAssocEntry: no association flags, as in every caller, so the fallback walk over the list is not reached.
- PacketScan.PacketsFound: nothing before the first whole packet looks like a packet; else the scan can stop at what only looks like one, as any scan for sync bytes can.
- PacketScan.NotedExact: as `PacketsFound` for the whole buffer, and nothing parses as a PCR packet at the last place but 208 unless it is one, see `StrayNoted`.
- ElementRuns.SeekRestarts: only what the loop and seeks do themselves is kept out in between; for a stream past half of 64 bits the pop must be safe.
- ElementRuns.EosReached: for a stream below half of 64 bits, and with no other act in between.
- TsIndexer.IndexSound: times are not ordered for a delta of -1, where random access points are noted instead; PCRs that wrap around are taken as they are.
- TsIndexer.Indexer.CollectTime: less than 2^62 bytes in all.
- Seeker.SeekRoundTrip: a delta of 0 or more, and a time from the first entry on; an earlier one fails, see `OffsetAtMeans`.
- Seeker.TimeShiftSeeker.SeekTo: times and offsets below 2^62 in magnitude; the answer of upstream to the duration query is a parameter.
- EndToEnd.TimeSeek: the cache still accepts the offset when the loop has stopped; the check before that is not made under the lock, so data arriving in between may push the offset out of the ring.

Parts of the repository that are not modelled:

- `stop_recording`, aborting a migration, removal of the file, temporary names: a recording runs until the end.
- Files are byte sequences that never fail; a gap reads as zeros.
- Pads, caps, properties, queries other than the ones named, messages, mapping of buffers, type registration, logging.
- The fullness estimate and the position query, which only feed log text and user interface.
- Balancing of trees and hash tables: a binary tree of any shape, by `RotateStands`, and finite maps.
- The conversion warnings of the seeker, one of which is posted exactly when the conversion is accurate.
- Replacing the index of a seeker or an indexer while it runs.
- 64-bit wrap-around of stream offsets and of times beyond the bounds named above.
- The example programs, the build, and the bin that wires the elements together.
