# The lossless data path, verified

A Dafny model of the data path of the acquisition system, from the bytes of a TCP data link to
the files on disk and to the fragments that go to analysis, and proofs about it.

    TCP bytes -> framer -> drain task -> bounded queue -> sender -> { writer -> files
                                                                   { decoder -> fragments

`dafny verify dfyconfig.toml` checks the project.

## How it is built

Each stage that changes state in the source is a class or a method with a loop, proved against a
specification function on values; the laws are lemmas about those functions, over every history.
Where such a function follows the code step by step, a law next to it says the same of the history
alone, without the function: of the bytes on the wire, the lines of the file, the messages, the
arrivals or the turns.

- `Framer` cuts frames out of a stream that arrives in chunks; `Cut`, which sees the whole stream
  at once, is the reference.
- `Drain` accepts data links and hands frames and end-of-stream marks to the queue; `Declared` is
  what it must hand over, looking only at the connections that carried data.
- `Sender` batches the queue onto two links; `SenderLaws` says when what leaves; `Links` says what
  a link carries of it, under which numbers, and what a reader at the other end has seen.
- `GrawWriter`, `RunWriter`, `WriterLaws`, `Paths`: routing, file chains with rotation, what the
  writer makes of any list of messages, file names. The disk is
  a map from paths to bytes in which creating a file truncates what was there.
- `Pipeline`: all sources with their queues, senders and links, the writer, and the intake of the
  decoder, as one transition system. A schedule is any list of steps, so the theorems hold over
  every interleaving. `Lossless`, `Recording`, `SecondConnection`, `LossDetection`, `Fragments`
  and `DecoderGaps` are about it.
- `Decode`, `Cursors`, `Items`, `FrameFormat`, `Readouts`: binary frames, compact items, the item
  word, the layout as its producers write it, and the two ways to send the same samples. `Cursors`
  also holds the item loop of the ROOT macro.
- `Restart`, `RunDecoder`, `DecoderLoop`, `DecoderLaws`, `DecoderRounds`, `DecoderBooks`,
  `DecoderOutputs`: the decoder core, the thread around it, and its laws over every list of turns
  and across rearms.
- `Geometry`: the dense channel table against the search through the lines of the file.
- `Merge`, `Laps`: replay of several files as one stream, and lap mode.
- `Logbook`: an append-only file whose writer may crash in the middle of a line.
- `Bytes`, `Messages`: integers in byte strings; messages and the sequence-number check.

## Main results

- **Conservation.** At every moment of every schedule, what a source handed over is, in order and
  up to exactly the counted overflow, what its queue accepted; and that is, in order and up to
  exactly what failed on the link, what the reader received, what is in flight, what is in the
  open batch and what is queued (`Lossless.ConservationAtEveryMoment`).
- **The split is lossless** for every key that a source uses on its first data connection only
  (`Lossless.SplitIsLossless`); with one expected source the writer has exactly the first
  connection, so the condition is exact (`Lossless.OnlyTheFirstConnection`).
  `Recording.RecordRun` runs the writer object over what any schedule delivered, closes its files,
  and has on disk, byte for byte, the frames of the streams that belong to each such key.
- **Loss shows.** The writer's gap counter is zero iff the numbers it received of each source are
  the first ones, and then so are the batches (`LossDetection.GapsShowEveryLossButATail`,
  `LossDetection.NoGapMeansFirstBatches`). The decoder's counter is zero iff in every round each
  source counts up from zero (`DecoderRounds.NoGapIffContiguousInEveryRound`), which for sources
  with one data connection means the same (`DecoderGaps.DecoderGapsShowEveryLossButATail`).
- **What the decoder accepts** is exactly what a header, items and a layout describe
  (`FrameFormat.DecodesIffWritten`), and a compact frame means the same as one that spells out its
  samples (`Readouts.SameItemsEitherWay`).
- **What comes out, and when.** Every batch and end of stream of the decoder carries its round's run
  number (`DecoderOutputs.RunsAreRight`), and what waits leaves exactly when it is due
  (`DecoderOutputs.DeparturesAreExact`, `SenderLaws.EmissionsAreExact`).
- **Messages of another run** leave nothing behind in the writer but a count
  (`WriterLaws.ForeignRunsLeaveNoTrace`), and its files hold exactly the frames that belong there
  (`WriterLaws.IntakeIsExact`, `Recording.Record`).
- **The channel map**: every lookup is the search through the lines (`Geometry.Parse`).
- **The end of stream is a barrier**, in every round of the decoder's life, and fragments are
  conserved from the streams to the output (`DecoderLaws.EndOfStreamIsABarrier`,
  `DecoderLaws.BarrierInEveryRound`, `DecoderLoop.FragmentsAreConserved`,
  `Fragments.FragmentsOfTheStreams`).
- **Compact items** get the cell of a closed form under every interleaving, no cell twice, and
  the ROOT macro agrees (`Cursors.*`).
- **Replay** of sorted files in laps stays in event order iff the laps fit 32 bits
  (`Laps.RunLaps`, `Laps.ReplayStaysSortedIffLapsFit`).

## Where the code and its documentation differ

- The comment at src/decode.rs:297-298 calls the range error of packing unreachable. A compact
  frame with more than 68 * 512 items on one AGET reaches it and is counted as malformed
  (`Cursors.RangeErrorIsReachable`).
- The compact size check is there to expose frames that are not a full readout, but looks only at
  the total. It passes a frame in which two AGETs are half full
  (`Cursors.SizeCheckMissesPartialReadout`); `Cursors.NoPartialAgetIff` gives the exact condition.
- Behind a corrupt header the frames returned can depend on how the stream was chunked
  (`Framer.ChunkingMattersAfterCorruption`); `Framer.ChunkIndependentIff` gives the exact condition.
- The logbook is documented to have at most its last line corrupt (src/logbook.rs:413-414). The
  writer does not end a torn line when it opens the file again, so the next record is glued onto
  it, and after one more record every reader fails for good (`Logbook.TornTailBreaksTheReader`,
  `Logbook.CrashThenTwoAppends`, `Logbook.CorruptionIsPermanent`). The sequence numbers stay right all the same.
- Lap mode keeps event order exactly while laps * (largest index + 1) <= 2^32, apart from one
  degenerate recording (`Laps.LapsStaySortedIffTheyFit`).
- The geometry build counts AsAds in 32 bits, and the model follows a release build, where they
  wrap. The AsAd number 2^32 - 1 overflows `asad + 1`: the lines of that AsAd end up malformed, and
  no other line does (`Geometry.OnlyTheLargestAsadIsLost`). 2^32 AsAds or more overflow the running
  total, and the build then indexes outside its table and panics; two lines are enough
  (`Geometry.TwoLinesAreTooMany`), and nothing else makes it panic (`Geometry.Build`).
- The writer stops at the first end of stream of every expected source. A second data connection
  of a source in the same run may therefore not reach its files, although nothing was dropped and
  no send failed (`SecondConnection.SecondConnectionIsMissed`); when the source is the only
  expected one, a key is complete iff the later connections carry no frame for it
  (`Lossless.OnlyTheFirstConnection`).
- The decoder reports a gap as one on a lossless link, an error (src/decoder.rs:288-299). Its
  rearm forgets the expected numbers while those of the sender run on, so a second data connection
  of a source in the same run counts a gap and latches the error although nothing was lost
  (`DecoderGaps.SecondConnectionCountsAGap`); `DecoderRounds.NoGapIffContiguousInEveryRound` gives
  the exact condition.

## Model

| member | source | states |
|---|---|---|
| Bytes.ReadUint | src/decode.rs:341-353 | the two accumulator loops compute the unsigned integer of up to eight bytes, and it fits them |
| Bytes.PutThenRead | src/decode.rs:341-353 | reading inverts the byte-order-aware writer for every value that fits |
| Bytes.ReadThenPut | src/decode.rs:341-353 | writing inverts reading, so a byte string and its value determine each other |
| Bytes.PutDigit | src/decode.rs:341-353 | byte i of a number, from its low end, stands at place i or mirrored |
| Framer.ParseFrameSize | src/framer.rs:129-147 | an announced length shorter than a primary header is refused |
| Framer.HeadFromBits | src/framer.rs:129-147 | from the bits of the first four bytes alone, with bits 6..4 of metaType arbitrary: corrupt, incomplete, or whole with blocks * 2^k bytes |
| Framer.DefaultLimit | src/framer.rs:15-45 | a header is corrupt for the default framer iff it announces less than 8 bytes or more than 64 MiB |
| Framer.AnnouncedFrameIsCut | src/framer.rs:70-94 | a frame of any type whose header announces its length is cut off as exactly one frame |
| Framer.TopologyFrameIsCut | src/framer.rs:301-329 | the real topology frame is cut at twelve bytes, whatever follows |
| Framer.CutIsByteExact | src/framer.rs:70-94 | cutting a stream loses and invents no byte and stops only at an incomplete or corrupt front |
| Framer.CutYieldsWellFormed | src/framer.rs:70-94 | every frame cut out has exactly the length its own header announces |
| Framer.CutOfFrames | src/framer.rs:70-94 | a stream put together from well-formed frames is cut back into exactly those |
| Framer.CutExtends | src/framer.rs:55-94 | more bytes never change a cut already made: cutting continues from the rest |
| Framer.Framer.Push | src/framer.rs:55-61 | appends to the unconsumed bytes, whatever compaction does to the buffer |
| Framer.Framer.Next | src/framer.rs:70-94 | returns the front frame and removes exactly it; an incomplete front changes nothing; a corrupt one empties the buffer and is counted |
| Framer.Framer.Reset | src/framer.rs:97-100 | forgets all unconsumed bytes |
| Framer.Framer.Buffered | src/framer.rs:103-105 | the number of unconsumed bytes |
| Framer.Framer.Compact | src/framer.rs:113-124 | drops the consumed front and leaves the unconsumed bytes as they were |
| Framer.Replay | src/framer.rs:55-94 | a real framer under any schedule of pushes and nexts does what the trace function says |
| Framer.ScheduleInvariant | src/framer.rs:55-124 | after every schedule: emitted frames and buffered bytes make up what was pushed, or a corrupt header was met and all frames in front of it are out |
| Framer.ChunkIndependence | src/framer.rs:55-124 | a drained framer has reset iff the stream has a corrupt header; without one its frames are those of the whole stream, with one those in front of it come first |
| Framer.WellFormedStreamSurvivesChunking | src/framer.rs:55-124 | for well-formed frames every chunking and drain schedule returns exactly those frames and leaves nothing |
| Framer.ResetInvariant | src/framer.rs:79-84 | after a reset the framer stands at least a header behind the corrupt one, and has emitted more only if a whole frame seems to start there |
| Framer.NeverMattersIff | src/framer.rs:55-124 | under the same condition, and no other, they are always those of the whole stream |
| Framer.ChunkIndependentIff | src/framer.rs:55-124 | every two chunkings and drain schedules of a stream give the same frames iff there is no corrupt header with a place behind it, a header further on or more, where a whole frame seems to start |
| Framer.ChunkingMattersAfterCorruption | src/framer.rs:79-84 | sixteen bytes that lose a good frame in one chunk and keep it in two |
| Items.UnpackAfterPack | src/msg.rs:202-218 | packing succeeds iff all fields fit, unpacking recovers them, reserved bits are zero |
| Items.PackAfterUnpack | src/msg.rs:202-218 | unpacked fields always pack, and packing again only clears bits 13:12 |
| Items.PackedBytes | src/msg.rs:202-218 | the four bytes of a packed sample from the top: aget*64 + chan/2, (chan%2)*128 + bucket/4, (bucket%4)*64 + adc/256, adc%256 |
| Items.ItemsToBytes | src/msg.rs:221-227 | the little-endian concatenation of the words |
| Items.ItemsFromBytes | src/msg.rs:231-239 | an error iff the length is no multiple of four, else the words whose bytes these are |
| Items.ItemBytesInjective | src/msg.rs:221-239 | different words have different bytes, so the two conversions are mutually inverse |
| Items.SplitLengthPrefixed | src/msg.rs:425-443 | the loop splits as the reference from position zero does, with the position of a truncation |
| Items.SplitIsInvertedByWriting | src/msg.rs:408-443 | writing the split frames gives the input back, byte for byte |
| Items.WritingIsInvertedBySplit | src/msg.rs:408-443 | splitting written frames gives them back when their lengths fit |
| Items.LengthPrefixRoundTrip | src/msg.rs:408-443 | the round trip holds iff every length fits 32 bits (longer ones are written clamped) |
| Items.TruncationPoint | src/msg.rs:425-443 | a truncated stream is whole frames and the start of one more, and the position reported is behind what could be read of it |
| Items.LongFramesAreClamped | src/msg.rs:415-419 | a frame of 2^32 bytes or more goes behind the length 0xFFFFFFFF |
| Cursors.DecodeCompact | src/decode.rs:317-337 | fails iff some AGET has more than 68*512 items; else packs channel k mod 68, bucket k div 68 for the k-th item of each AGET |
| Cursors.PlaceItem | src/decode.rs:323-335 | one turn of the four cursors: they stay the quotient and remainder of the items seen, and inside 68 and 512 |
| Cursors.DecodePartial | src/decode.rs:307-316 | every word comes out with its reserved bits cleared and nothing else changed |
| Cursors.ClearedBytes | src/decode.rs:307-316 | clearing takes bits 5 and 4 of the third byte from the top and nothing else |
| Cursors.CompactWordsUnpack | src/decode.rs:317-337 | unpacking the decoded words gives the closed form |
| Cursors.CellsAreDistinct | src/decode.rs:321-335 | no two items of a frame share a cell, whatever the interleaving |
| Cursors.EveryRankIsTaken | src/decode.rs:321-335 | below an AGET's item count every rank is some item's |
| Cursors.CompleteIffCounted | src/decode.rs:224-233 | an AGET's cells are all covered iff it sent at least 68*512 items |
| Cursors.FullReadoutIsABijection | src/decode.rs:224-233 | a decodable frame of 4*68*512 items covers every cell exactly once |
| Cursors.NoPartialAgetIff | src/decode.rs:224-233 | no AGET is read out in part iff each sent nothing or exactly 68*512 items |
| Cursors.SizeCheckMissesPartialReadout | src/decode.rs:224-233 | a frame that passes the size check with two half-empty AGETs |
| Cursors.RangeErrorIsReachable | src/decode.rs:297-332 | the packing error occurs for one AGET iff it has more items than cells |
| Cursors.Graw2RootCompact | macros/graw2root.C:172-185 | the ROOT macro's array holds at (aget, channel, cell) the value of item 68*cell + channel of the AGET, or zero |
| Cursors.NextPlace | macros/graw2root.C:177-183 | one turn of the macro's cursors: the place is the quotient and remainder of the items seen |
| Cursors.DecoderAgreesWithGraw2Root | macros/graw2root.C:172-185 | the two closed forms agree: the samples scattered are the cell values, cell by cell |
| Cursors.BothReaders | macros/graw2root.C:172-185 | the bytes of the decoder, taken apart into words, unpacked and scattered, are the array of the ROOT macro; the decoder fails iff an AGET is overfull |
| Decode.Decoder.Decode | src/decode.rs:147-249 | returns the fragment of the frame, and moves exactly the counters of its class |
| Decode.Decoder.CountData | src/decode.rs:218-233 | a data frame moves the counter of its type, and a compact one of odd size the mismatch counter |
| Decode.ReadItems | src/decode.rs:171-216 | none iff the header is inconsistent or the items do not decode |
| Decode.DecodeItems | src/decode.rs:299-338 | both branches return the closed form of their items |
| Decode.EveryFrameIsCountedOnce | src/decode.rs:147-249 | over every list of frames the three classes add up to their number and the types to the data frames |
| Decode.PeeksAgreeWithDecoding | src/decode.rs:90-118 | a frame that decodes has exactly the peeked AsAd and event index; a frame without AsAd never decodes; a topology frame is unsupported |
| Decode.PeeksFromBytes | src/decode.rs:63-118 | what the three peeks return, and which frames are unsupported, from the bytes of the wire alone |
| Decode.CountersAreExact | src/decode.rs:147-249 | every counter is the number of frames of its kind over any list, each kind described on the bytes or the fragment |
| Decode.FragmentWidths | src/decode.rs:193-216 | every decoded field keeps its wire width, multiplicities and last cells are four each, and items are whole words |
| FrameFormat.PartialRoundTrip | src/decode.rs:397-478 | a frameType 1 frame built from header and words, in any byte order, block size and padding, decodes to them with the reserved bits cleared |
| FrameFormat.CompactRoundTrip | src/decode.rs:437-478 | a compact frame built from header and items, in any layout, decodes to the header and the closed form, or fails iff an AGET is overfull |
| FrameFormat.BuiltFrameIsWellFormed | src/decode.rs:397-478 | the framer takes every built frame of up to 2^24 blocks for exactly one frame |
| FrameFormat.DecodesIffWritten | src/decode.rs:147-249 | a frame decodes iff it is put together from header, items and a layout, all unread bytes arbitrary, and no AGET of a compact one has too many items |
| FrameFormat.LayoutsOfTheSource | src/decode.rs:397-478 | single bytes without padding and padded blocks of 256 bytes are such layouts |
| Readouts.ExplicitDecodes | src/decode.rs:307-316 | four bytes per sample, given byte by byte in either order, come out as the same little-endian words |
| Readouts.CompactDecodes | src/decode.rs:317-337 | two bytes per sample, given byte by byte in either order, come out as the words of the samples in readout order, or fail iff an AGET sent more than 68*512 |
| Readouts.SameItemsEitherWay | src/decode.rs:297-338 | a compact frame and a frame that spells out the same samples, each in any layout, decode to the same items |
| Messages.NoGapIffContiguous | src/graw_writer.rs:357-368 | as long as the numbers are not forgotten, no gap is counted iff every source's numbers count up from zero without a hole |
| Messages.LossIsDetected | src/graw_writer.rs:357-368 | likewise, for in-order subsequences of what was sent, no gap iff each is a prefix: only a missing tail goes unnoticed |
| Messages.BatchesAreCounted | src/decoder.rs:300 | the batch counter of a source is the number of batches received from it |
| Drain.FeedIsCut | src/receiver.rs:439-452 | a connection without a corrupt header yields exactly the frames of its stream, however it was read |
| Drain.DrainTask.constructor | src/receiver.rs:367-370 | a task starts without a link and owing an end of stream |
| Drain.DrainTask.Accepted | src/receiver.rs:379-396 | a new link starts with an empty framer and no bytes, and does not touch the debt |
| Drain.DrainTask.OnRead | src/receiver.rs:427-461 | the first data raises the debt; all complete frames are taken at once, in order |
| Drain.DrainTask.FeedFramer | src/receiver.rs:439-452 | push and take: the connection stands where the cutting of its bytes leaves it |
| Drain.DrainTask.TakeFrames | src/receiver.rs:440-452 | the inner loop takes exactly the cut of what is buffered |
| Drain.DrainTask.OnClose | src/receiver.rs:417-471 | a link that carried data hands over a mark and pays the debt; an empty one leaves no trace |
| Drain.DrainTask.Handle | src/receiver.rs:375-472 | one event of the task does what the event function says of its state and output |
| Drain.Drive | src/receiver.rs:360-483 | a real task over any history of events, from start to stop, hands over exactly the messages of the event-by-event reference |
| Drain.RunTracks | src/receiver.rs:360-483 | after every history of events the output is the frames of the data connections with a mark behind each closed one, and the debt is right |
| Drain.HandedIsDeclared | src/receiver.rs:360-483 | from start to stop the messages depend on the data-carrying connections alone, and end with a mark |
| Drain.MarkCount | src/receiver.rs:360-483 | marks are closed data connections plus one iff one is owed at stop |
| Drain.NoiseLeavesNoTrace | src/receiver.rs:384-411 | deleting failed accepts and rejected connections leaves the messages unchanged |
| Drain.EmptyConnectionLeavesNoTrace | src/receiver.rs:379-471 | deleting a connection that carried no byte leaves the messages unchanged |
| Sender.Sender.constructor | src/receiver.rs:594-611 | an idle sender with both links at number zero |
| Sender.Sender.SendOnBoth | src/receiver.rs:757-771 | both links get the message; each number advances for a batch whatever the outcome |
| Sender.Sender.FlushBatch | src/receiver.rs:743-782 | a non-empty batch is put on both links and emptied; an empty one sends nothing |
| Sender.Sender.ReceiveFrame | src/receiver.rs:630-651 | the frame joins the batch, which is flushed once it has reached the size limit |
| Sender.Sender.ReceiveMark | src/receiver.rs:652-678 | the batch is flushed before the end of stream goes out |
| Sender.Sender.TimedOut | src/receiver.rs:680-711 | flushes on a passed deadline, else a heartbeat when idle and not ended |
| Sender.Sender.Disconnected | src/receiver.rs:713-723 | the rest is flushed and the loop ends |
| Sender.Sender.Handle | src/receiver.rs:628-724 | one turn of the loop, for a frame, a mark, a timeout or a disconnected queue |
| Sender.Drive | src/receiver.rs:594-737 | a real sender over any history of arrivals leaves on each link what the log of the loop says, and takes nothing once it has ended |
| Sender.FrameIsHeld | src/receiver.rs:630-651 | emitted plus open batch grow by exactly the frame, whatever the sends did |
| Sender.MarkIsHeld | src/receiver.rs:652-678 | a mark comes behind everything taken before it |
| Sender.TimeoutHolds | src/receiver.rs:680-711 | flushes by time and heartbeats lose and reorder nothing |
| Sender.FlushHolds | src/receiver.rs:743-782 | flushing moves the open batch behind what was emitted |
| Sender.StepsKeepSizes | src/receiver.rs:630-723 | batches are never empty and below the limit without their last frame; the open batch is below it |
| SenderLaws.EmissionsAreExact | src/receiver.rs:613-737 | after every history each arrival emits one batch of everything still here iff it is large enough, its time has passed, a mark came or the queue is gone; then the mark; or an idle heartbeat; with these outcomes, and nothing else |
| Links.NumbersNameBatches | src/receiver.rs:757-771 | on either link a number stands for the same batch of the sender |
| Links.LinkNumbers | src/receiver.rs:757-771 | the numbers on a link are an in-order selection of 0, 1, 2, ... |
| Links.LinkNumbersComplete | src/receiver.rs:757-771 | they are all of them if no batch failed, whatever became of heartbeats |
| Links.LinkCarriesItsShare | src/receiver.rs:757-771 | what can be read off a link is what got through on it |
| Links.SharesMakeUpTheWhole | src/receiver.rs:757-771 | what got through and what failed are together exactly what was emitted |
| Links.ReceivedAndInFlight | src/receiver.rs:757-771 | received and in flight are, in order, what was emitted, up to exactly what failed |
| Links.PayloadsArePrefix | src/receiver.rs:757-771 | numbers without a hole mean batches without a hole |
| Paths.NameInjective | src/graw_writer.rs:556-565 | key, time stamp and index can be read off a file name |
| Paths.PathInjective | src/graw_writer.rs:556-565 | distinct (key, stamp, index) of a run never share a path |
| Paths.PathReads | src/graw_writer.rs:498-565 | every path part by part: which number stands behind run, CoBo, AsAd and the stamp, and how it is padded |
| GrawWriter.ChainIsAnExactSplit | src/graw_writer.rs:573-652 | the files of a key hold its frames in order, none split; every file but the last was rotated out by the frame that passed the limit; the last is within it |
| GrawWriter.FlatOfConcat | src/graw_writer.rs:573-652 | the bytes of a chain, file after file, are the bytes of its frames |
| GrawWriter.OpeningKeepsChains | src/graw_writer.rs:654-685 | creating the first file of a key overwrites no other file and leaves all chains intact |
| GrawWriter.WritingKeepsChains | src/graw_writer.rs:573-652 | one frame extends exactly its own chain on disk, with gap-free indices and right reports, rotation included |
| GrawWriter.ChainOnDiskIsLossless | src/graw_writer.rs:573-652 | also while the files are open, read from disk in index order they are the frames written under the key |
| GrawWriter.ClosingCompletesTheChain | src/graw_writer.rs:687-697 | closing the last file gives the chain a report per file, in index order, with its path, bytes and frames |
| GrawWriter.ClosedChainIsLossless | src/graw_writer.rs:414-428 | the reported files of a key, read back in order, are the frames written under it |
| RunWriter.RunWriter.constructor | src/graw_writer.rs:227-251 | a new run has no files and zero counters |
| RunWriter.RunWriter.HandleBatch | src/graw_writer.rs:338-388 | a batch of another run is counted and skipped; else its number is checked and every frame written, and the chains and totals stay right |
| RunWriter.RunWriter.CheckSequence | src/graw_writer.rs:357-369 | a gap is counted and latched, the number is followed and the batch counted |
| RunWriter.RunWriter.WriteFrames | src/graw_writer.rs:371-387 | frames go to the key of their AsAd, others under ctrl, in order |
| RunWriter.RunWriter.WriteTo | src/graw_writer.rs:573-615 | one frame is appended to the history and to its chain, byte and frame counters equal the contents |
| RunWriter.RunWriter.StoreFrame | src/graw_writer.rs:576-601 | the first frame of a key creates its file; chains stay exact |
| RunWriter.RunWriter.CountFrame | src/graw_writer.rs:595-598 | per-AsAd bytes and frames, or the ctrl count, grow by the frame |
| RunWriter.RunWriter.WriteAll | src/graw_writer.rs:580-603 | appends, and rotates iff the file is now past the limit |
| RunWriter.RunWriter.Rotate | src/graw_writer.rs:621-652 | reports the file and opens the next index under the same time stamp |
| RunWriter.RunWriter.OpenNewFile | src/graw_writer.rs:659-685 | creates an empty file at the key's path |
| RunWriter.RunWriter.Finalize | src/graw_writer.rs:414-428 | every chain is closed: each written key has one report per file in index order, and each file holds its frames |
| RunWriter.ConsumeUntilDone | src/graw_writer.rs:788-882 | the receive loop does what the message-by-message reference says, up to the last expected end of stream |
| RunWriter.DoneTakesNoMore | src/graw_writer.rs:846-853 | nothing received behind the last expected end of stream is written |
| WriterLaws.KeyIsWhereItBelongs | src/graw_writer.rs:371-387 | a data frame goes to the file of byte 27, every other frame to ctrl |
| WriterLaws.IntakeIsExact | src/graw_writer.rs:788-882 | for any messages, up to the last expected end of stream and no further: under every key the frames that belong there of the batches of this run, the check has seen their numbers, every other message is in its counter, and the latch is a gap or a foreign batch |
| WriterLaws.ForeignRunsLeaveNoTrace | src/graw_writer.rs:345-355 | deleting all messages of other runs changes nothing but the mismatch counter and the latch |
| Pipeline.NodeStepKeepsInv | src/receiver.rs:440-452 | every step of a source keeps: accepted messages are those offered minus the counted overflow, in order; without overflow a prefix of them; all are held, queued or sent; batches keep their size bounds |
| Pipeline.StepKeepsInv | src/receiver.rs:360-782 | every step of any component keeps the invariant of the whole system |
| Pipeline.EverySchedule | src/receiver.rs:360-782 | the invariant holds after every schedule of drains, queues, senders, writer and decoder intake |
| Pipeline.DropsOnlyWhenFull | src/receiver.rs:440-452 | in every schedule the queue keeps its capacity, a frame is dropped exactly when it is offered to a full queue or a dead sender, and a mark only when the sender is dead |
| Pipeline.DoneStaysDone | src/graw_writer.rs:846-853 | once the writer is done no step changes what it has received and written |
| Lossless.ConservationAtEveryMoment | src/receiver.rs:439-782 | at every moment of every schedule, for the writer and for the decoder: offered messages are accepted ones up to exactly the counted overflow, and accepted ones are received, in flight, in the open batch and queued ones, in order, up to exactly what failed on the link |
| Lossless.BatchSizesEverySchedule | src/receiver.rs:630-651 | after every schedule no batch is empty or, without its last frame, at the limit |
| Lossless.WriterFollowsLinks | src/graw_writer.rs:338-388 | under each key the writer has written the routed frames of that source's link |
| Lossless.EndedMeansMarked | src/graw_writer.rs:846-853 | a source counts as ended only after its mark arrived |
| Lossless.SplitOfEveryConnection | src/graw_writer.rs:788-882 | for any number of connections, without overflow and failed sends: each key holds exactly its frames of the received prefix, every connection whose mark arrived is complete, and the first one is when the writer is done |
| Lossless.SplitIsLossless | src/graw_writer.rs:788-882 | with the writer done and no loss, a key used on the first data connection only holds exactly the frames of all streams with that key |
| Lossless.OnlyTheFirstConnection | src/graw_writer.rs:846-853 | with one expected source, the writer done and no loss, each key holds exactly the frames of the first connection, so it is complete iff the later ones carry none for it |
| Lossless.StreamOfWellFormedFrames | src/receiver.rs:439-452 | a stream of well-formed frames gives back those frames |
| SecondConnection.SecondConnectionIsMissed | src/graw_writer.rs:846-853 | a schedule without any loss, both connections on the link before the writer takes the first message, in which a frame of the second one is never written, whatever steps follow |
| Recording.Record | src/graw_writer.rs:773-882 | the writer thread on any messages: the files of each key in index order are byte for byte the frames that belong there of the batches of this run up to the last expected end of stream |
| Recording.RecordRun | src/graw_writer.rs:773-882 | the same in every schedule of the pipeline: for a source without loss that uses the key on its first data connection only, the files are its streams' frames with that key |
| LossDetection.NumbersOfOneSource | src/graw_writer.rs:357-368 | the check of one source sees exactly the numbers of its link |
| LossDetection.GapsShowEveryLossButATail | src/graw_writer.rs:357-368 | after every schedule the gap counter is zero iff from each source a hole-free prefix of its batches arrived |
| LossDetection.NoGapMeansFirstBatches | src/graw_writer.rs:357-368 | without a gap the batches received from a source are the first batches of its sender |
| LossDetection.FeedGapsShowEveryLossButATail | src/decoder.rs:288-299 | a check that is never rearmed and sees all the decoder takes off the links is at zero iff from each source a hole-free prefix arrived |
| LossDetection.BatchCountersAreExact | src/graw_writer.rs:369 | the batch counters equal what was received from each source |
| Restart.MinEpoch | src/decoder.rs:720-725 | the least epoch over the expected sources, unseen ones counting zero, zero if there are none |
| Restart.RestartsAreMinEpoch | src/decoder.rs:692-729 | since the last rearm the restart counter grew by exactly the minimum epoch |
| Restart.SourcesAreIndependent | src/decoder.rs:693-713 | a source's epoch state depends on its own frames only |
| Restart.FramesBeforeAreExact | src/decoder.rs:714-718 | from a rearmed tracker: the frame count kept per source is that before its first restart, and a count from an earlier run stays |
| Restart.EpochStateIsExact | src/decoder.rs:699-713 | the epoch is the number of restarts, and index maximum and time floor are those of exactly the current epoch's frames |
| Restart.RestartsIff | src/decoder.rs:699-702 | a frame restarts its source iff its index is 0, some frame of the epoch has an index of 9 or more, and its clock is more than 10^7 ticks before all of them |
| Restart.EpochIsBounded | src/decoder.rs:699-713 | with 48-bit clocks an epoch is at most 2^48 / (10^7 + 1), so its counter cannot overflow |
| RunDecoder.RunDecoder.TakeBatch | src/decoder.rs:278-405 | run and number are checked, every frame is taken in order, and a full buffer asks to be sent |
| RunDecoder.RunDecoder.CheckRunNumber | src/decoder.rs:662-685 | after a rearm the next run number is adopted, otherwise a change is counted and latched |
| RunDecoder.RunDecoder.CheckSequence | src/decoder.rs:288-300 | a gap is counted and latched, the number is followed and the batch counted |
| RunDecoder.RunDecoder.TakeOneFrame | src/decoder.rs:302-398 | one frame: kept, or dropped under the counter that moved; the fallback branch cannot occur |
| RunDecoder.RunDecoder.TrackRestart | src/decoder.rs:692-746 | epochs, first-restart counts and the restart counter after one data frame |
| RunDecoder.RunDecoder.TakeEndOfStream | src/decoder.rs:411-431 | records the source whatever its run number, and asks for flush and end when all expected ones ended |
| RunDecoder.RunDecoder.Tick | src/decoder.rs:440-445 | asks for a send iff a deadline has passed |
| RunDecoder.RunDecoder.CountSent | src/decoder.rs:474-481 | counts the batch, its fragments and words, takes the next number, empties the buffer |
| RunDecoder.RunDecoder.CountAbandoned | src/decoder.rs:491-502 | counts the loss and uses up the number |
| RunDecoder.RunDecoder.EndRun | src/decoder.rs:505-523 | counts the own end of stream and rearms |
| RunDecoder.RunDecoder.RearmRun | src/decoder.rs:754-765 | forgets ended sources, numbers and epochs and clears the buffer; counters stay |
| DecoderLoop.Drive | src/decoder.rs:966-1100 | the thread around a real core does what the turn function says, and sends what is left when it stops |
| DecoderLoop.DriveOnce | src/decoder.rs:1036-1085 | one turn: message, deadline, send; the flush comes before the own end of stream |
| DecoderLoop.SendOne | src/decoder.rs:819-859 | nothing pending sends nothing; else the pending batch goes out or is abandoned under the next number |
| DecoderLoop.PendingMoves | src/decoder.rs:819-859 | a send empties the buffer into the output, sent or abandoned |
| DecoderLoop.FlushMoves | src/decoder.rs:1074-1085 | when the rearm clears the buffer it is already empty, so nothing is lost by it |
| DecoderLoop.FragmentsAreConserved | src/decoder.rs:302-502 | over every run the sent, abandoned and pending fragments, in order, are the decoded input frames |
| DecoderLoop.NothingStaysBehind | src/decoder.rs:1098-1099 | once the thread has stopped every decoded frame was sent or lies in an abandoned batch, in order |
| DecoderLaws.BooksAreRight | src/decoder.rs:302-502 | over every run: byte count, deadline, output counters and numbers are exact, frames are in one class each, the error latch is exactly a gap, a mismatch or a malformed frame |
| DecoderLaws.NoBarrierYet | src/decoder.rs:411-431 | before the last expected source ended no end of stream goes out |
| DecoderLaws.BarrierTurn | src/decoder.rs:1074-1085 | the completing turn flushes and then ends the stream |
| DecoderLaws.EndOfStreamIsABarrier | src/decoder.rs:411-431 | for every interleaving of streams with one end each, the own end of stream goes out exactly once, last, with every fragment sent or in an abandoned batch and nothing pending |
| DecoderLaws.BarrierInEveryRound | src/decoder.rs:411-765 | across rearms: own ends of stream go out exactly when a round of expected ends is complete, and in front of each are exactly the fragments that had come in by then |
| DecoderLaws.RestartCounterFollowsSlowestSource | src/decoder.rs:692-765 | over the whole life of the thread the restart counter is its value at the last rearm plus the minimum epoch |
| DecoderLaws.EpochsNeverOverflow | src/decoder.rs:692-713 | over the whole life of the thread no epoch exceeds 2^48 / (10^7 + 1) |
| DecoderBooks.CountersOverTurns | src/decoder.rs:278-460 | over every list of turns each counter of the intake is the number of messages or frames of its kind, whatever was rearmed |
| DecoderOutputs.RunsAreRight | src/decoder.rs:662-685 | over every list of turns everything sent in a round carries the run number of its first batch or end of stream (the start number in the first round), and the mismatch counter is the number of messages with another number than their round |
| DecoderOutputs.DeparturesAreExact | src/decoder.rs:302-502 | over every list of turns, each turn sends one batch of everything that waits iff the round ends, or a batch came and they are large enough, or the oldest has waited batch_max; then the own end iff the round ends; nothing else |
| DecoderRounds.CheckOverRounds | src/decoder.rs:288-300 | over the whole life of the thread the check is that of its rounds, one after the other |
| DecoderRounds.NoGapIffContiguousInEveryRound | src/decoder.rs:288-299 | over every list of turns no gap is counted iff in every round each source's numbers count up from zero without a hole |
| DecoderRounds.NumbersThatRunOnCountAGap | src/decoder.rs:754-765 | a batch, the end of stream and the next number: one gap is counted, though no number is missing |
| DecoderRounds.TrackerOverRounds | src/decoder.rs:692-765 | over the whole life of the thread the restart tracker is that of the data frames of its rounds, rearmed in between |
| DecoderRounds.RestartCounterIsTheSum | src/decoder.rs:714-765 | over the whole life of the thread the restart counter is the sum over the rounds of the restarts of the slowest expected source |
| DecoderRounds.EpochStatesAreExact | src/decoder.rs:692-765 | over every list of turns a source's index maximum, time floor and frame count are exact for its data frames since the last rearm |
| DecoderRounds.FramesBeforeRestartEver | src/decoder.rs:714-765 | over every list of turns the count kept for a source is that before its first restart ever, counted within its round |
| DecoderGaps.DecoderGapsShowEveryLossButATail | src/decoder.rs:288-299 | in every schedule with at most one data connection per source, and for all turns, the decoder's gap counter is zero iff from each source a hole-free prefix of its numbers arrived |
| DecoderGaps.NoGapMeansFirstBatchesDecoded | src/decoder.rs:288-299 | and then the batches it got from a source are the first batches of its sender |
| DecoderGaps.BarrierBehindTheLinks | src/decoder.rs:411-431 | in such a schedule, once all expected ends have come through the links, the decoder has ended its stream once, behind every fragment |
| DecoderGaps.SecondConnectionCountsAGap | src/decoder.rs:754-765 | a schedule without any loss, with two connections of the only expected source, in which the decoder counts a gap |
| Fragments.FragmentsAreDecodedFrames | src/decoder.rs:1041-1064 | the fragments of a source are those of the frames its link delivered |
| Fragments.FragmentsOfTheStreams | src/decoder.rs:966-1100 | in every schedule and for all turns: a source without loss gives the fragments of a prefix of its streams, complete up to its last mark received, of its whole stream with one connection and its end seen; in order, and nothing else is sent, abandoned or pending |
| Geometry.ReorderClosedForm | src/geometry.rs:41-45 | the table has 64 entries, each its signal channel plus the fixed-pattern channels below it |
| Geometry.Normal2Raw | src/geometry.rs:757-768 | the loop the table was made from agrees with it on all channels |
| Geometry.ReorderSkipsExactlyFpn | src/geometry.rs:41-45 | the table is increasing and misses exactly the fixed-pattern channels |
| Geometry.IndexOrder | src/geometry.rs:270-290 | table order is lexicographic order of (cobo, asad, aget, raw), so indices are injective |
| Geometry.IndexInTable | src/geometry.rs:270-290 | a valid key has its slot inside the table |
| Geometry.IndexIsOnto | src/geometry.rs:270-290 | every slot belongs to a valid key |
| Geometry.ParseLines | src/geometry.rs:363-422 | entries, chips and malformed line numbers are those of the usable and unusable lines, in file order |
| Geometry.CountAsads | src/geometry.rs:649-662 | the counts cover every chip and are no larger than needed |
| Geometry.RunningOffsets | src/geometry.rs:664-670 | offsets and total are the running sums of the counts, in 32 bits |
| Geometry.PlaceChips | src/geometry.rs:671-682 | runs outside the table iff the AsAds are more than 32 bits can count; else the table shows exactly the fixed-pattern channels of the chips that occur, in any order of the set |
| Geometry.OverflowLeavesAChipOutside | src/geometry.rs:664-678 | when the total wraps some chip lies outside the table |
| Geometry.PlaceOne | src/geometry.rs:687-731 | an empty slot takes the line, a taken one makes it a duplicate, no slot makes it malformed |
| Geometry.PlaceEntries | src/geometry.rs:684-731 | after all lines the table shows the first line of each key, and duplicates are exactly the later ones |
| Geometry.Build | src/geometry.rs:642-744 | panics iff there are 2^32 AsAds or more; else the table shows the naive map, and duplicates and added malformed lines are exact |
| Geometry.TwoLinesAreTooMany | src/geometry.rs:664-678 | two well-formed lines on which the build panics |
| Geometry.LookupIsFirstLine | src/geometry.rs:187-201 | whatever the key, a lookup is the fixed-pattern role, else the first line naming it, else unmapped |
| Geometry.FirstRoleIsFirstNamed | src/geometry.rs:533-595 | the first entry of raw channel r is the first line naming signal s of the chip, where r is s plus the fixed-pattern channels below it |
| Geometry.BadAndLost | src/geometry.rs:363-422 | malformed are exactly the broken lines, those with AGET 4 or more or signal 64 or more, and behind them those with the AsAd number 2^32 - 1 |
| Geometry.DuplicatesAreRepeated | src/geometry.rs:684-731 | duplicates are exactly the lines whose signal an earlier line has named |
| Geometry.LookupIsInLines | src/geometry.rs:187-201 | whatever the key, a lookup is the fixed-pattern role of a chip some line names, else the role of the first line naming the channel, else unmapped |
| Geometry.OnlyTheLargestAsadIsLost | src/geometry.rs:656-662 | a build that ends calls a line malformed iff its AsAd number is 2^32 - 1, which the table cannot hold |
| Geometry.Parse | src/geometry.rs:363-422 | lines in, table out, or a panic iff the chips they name are too many: every lookup, malformed line and duplicate is what the lines say |
| Geometry.Geometry.Lookup | src/geometry.rs:187-201 | returns the role and counts it iff it is unmapped |
| Geometry.DumpKeys | src/geometry.rs:298-347 | the dump visits every slot once, in table order |
| Merge.FrameSource.constructor | src/bin/graw_replay.rs:260-272 | nothing delivered yet, everything to come |
| Merge.FrameSource.NextFrame | src/bin/graw_replay.rs:274-298 | delivers the frames of the file one after the other, however it is read, and none only at the end |
| Merge.Pick | src/bin/graw_replay.rs:337-356 | the first control head, else the least (event index, file), none iff all files are at their end |
| Merge.OpenAll | src/bin/graw_replay.rs:317-331 | every file's first frame becomes its head |
| Merge.ReplayOnce | src/bin/graw_replay.rs:309-369 | an interleaving that keeps each file's order and loses nothing, sorted by (event index, file) if the files are, wherever control frames stand; the total is the bytes sent; it terminates |
| Merge.NextOut | src/bin/graw_replay.rs:337-356 | at every place of the output: the control frame of the first file whose next frame is one, else the data frame with the least (event index, file) |
| Merge.MergeIsUnique | src/bin/graw_replay.rs:337-356 | the same frames in the same files always give the same merge |
| Merge.ReplayFiles | src/bin/graw_replay.rs:309-369 | opening the files and merging them gives the merge of their frames |
| Laps.RunLaps | src/bin/graw_replay.rs:178-244 | every lap opens and merges the files again; the output is the laps of that one merge in order, shifted by the maximum measured on the first; there is at least one lap, and with --laps n there are n unless the clock ends it earlier |
| Laps.SendLap | src/bin/graw_replay.rs:189-223 | one lap sends every frame patched, in order, and the first one measures the largest index |
| Laps.PatchIsLocal | src/bin/graw_replay.rs:206-215 | patching changes only bytes 22..26 and keeps length and AsAd |
| Laps.PatchReadsBack | src/bin/graw_replay.rs:206-215 | the patched index reads back in both byte orders |
| Laps.LapRange | src/bin/graw_replay.rs:206-215 | while laps fit, lap L uses only indices from L*(max+1) up to (L+1)*(max+1), and shifts each by exactly L*(max+1) |
| Laps.LapsNeverCollide | src/bin/graw_replay.rs:206-215 | laps that fit never share an index |
| Laps.LapsStaySortedIffTheyFit | src/bin/graw_replay.rs:178-244 | the whole output is sorted iff laps*(max+1) <= 2^32, or the largest index is the only one in use |
| Laps.ReplayStaysSortedIffLapsFit | src/bin/graw_replay.rs:178-369 | sorted files with an event among them, replayed in laps, come out sorted iff laps*(max+1) <= 2^32, or the largest index is the only one in use |
| Logbook.RecoverNextSeq | src/logbook.rs:416-431 | one past the last line that parses, or one, with the number of lines skipped behind it |
| Logbook.LogbookWriter.constructor | src/logbook.rs:462-475 | opening keeps the file and recovers the number |
| Logbook.LogbookWriter.Append | src/logbook.rs:485-500 | a whole line is appended and uses up a number, or a fragment is left and it is not |
| Logbook.SequenceNumbersIncrease | src/logbook.rs:416-500 | over every history of opens, appends, failures and crashes, also behind torn tails, the numbers that parse strictly increase and the recovered one is above them all |
| Logbook.CleanHistoriesCount | src/logbook.rs:462-500 | while nothing fails the lines are numbered 1, 2, 3, ..., one for each append, over any number of reopenings |
| Logbook.ReadSince | src/logbook.rs:518-560 | fails iff a line other than the last does not parse, naming the first such; else exactly the later records in file order |
| Logbook.LaterIff | src/logbook.rs:518-560 | a reader gets a record iff some line holds it and its number is above the one given |
| Logbook.PollingMissesNothing | src/logbook.rs:518-560 | a reader that goes on from a number it has reached gets exactly what it has not had yet |
| Logbook.CorruptionIsPermanent | src/logbook.rs:518-560 | once a reader fails on the file every later reader does |
| Logbook.TornTailBreaksTheReader | src/logbook.rs:485-560 | after two more records the reader fails iff a line was broken before or the tail was torn |
| Logbook.CrashThenTwoAppends | src/logbook.rs:462-560 | a crash inside any part of the first line, a restart and two appends: no reader can read the file |

## Left out

- Sockets, the async runtime, mutexes, signals and logging: a send ends as sent, failed, stopped or abandoned, links are FIFO, and time and the writer's clock readings are parameters.
- File-system calls and their failures: files are byte strings, directories always exist, and an I/O failure would only stop the writer, which any prefix of a schedule already covers. Buffering inside a file handle is not modelled.
- MessagePack, JSON and TOML encoding: library behaviour; undecodable messages, and the counters for them, are left out.
- src/command.rs, src/state.rs, src/config.rs, the command handlers of the components, the ROOT macros other than the compact loop, the monitor, the controller and the web UI: finite tables, plumbing, or floating-point and display code.
- Counters are natural numbers: the u32 and u64 widths of counters, sequence numbers and file indices are not modelled, nor the overflow checks that 64-bit machines cannot reach. Event indices, event times, item words, length fields, lap shifts and AsAd counts do have their widths.
- Geometry.ParseLines: takes lines after token parsing, with a named channel, a broken line or an ignored one; header values, strip shapes and largest strip numbers are not modelled.
- Cursors.Graw2RootCompact: only the compact loop; the macro's loop for frameType 1 writes outside its array for channels above 67 and has no defined result there.
- Paths.PathInjective: assumes time stamps without `_` and `/`, which the writer's date format guarantees.
- RunWriter.RunWriter.HandleBatch: periodic flushes and write errors are not modelled; the writer gets the clock readings it needs as parameters.
- RunDecoder.RunDecoder.TakeBatch: related fields are grouped into records (buffer, sequence check, tally, tracker), and first-time log flags are left out.
- DecoderLoop.Drive: idle heartbeats of the decoder are left out; they carry no fragment.
- Geometry.Build: that a table of many AsAds may not fit into memory is left out.
- Merge.ReplayOnce: a file with a corrupt header is merged as its framer delivers it, but which frames those are depends on the reads; empty files, which the program skips, deliver nothing here. Pacing is left out.
- Laps.RunLaps: the elapsed time is a reading per lap, given as a parameter, and the output is stated for files without a corrupt header, which give the same frames on every lap.
- Logbook.ReadSince: a record is four glyphs instead of JSON text, so that a line parses iff it is exactly one record and a record behind a fragment of another never parses, as with JSON objects. A crash inside a multi-byte character, after which the file is not valid text at all, missing files and date stamps are left out.
