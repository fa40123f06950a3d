# Media path models

Dafny models of four machines on the media path, and proofs of what they promise.
`dafny verify dfyconfig.toml` checks the whole project.

**Jitter buffer.** `JitterNodes`, `StableMerge` and `JitterSort` hold the packet nodes, their
doubly linked list and its in-place merge sort. `JitterBuffers.JitterBuffer` is the buffer: the node
pool, the index by sequence number, the counters, the playout target and the set of missing numbers.
Its invariant `Valid` is kept by every operation. It says that list, counters and index agree
(`Shape`), by how much the frame counter departs from the list, and why (`FramesOk`), that every
packet taken in was delivered, dropped with its frame, discarded or is still there (`LedgerOk`),
that the pool stays within its bound (`PoolOk`), that the missing set is what the arrivals imply
(`LossOk`, with `MissingTracker`), that a retransmission buffer is what its log says (`LogOk`, with
`SendLog`), that audio and text play consecutive numbers (`PlayoutOk`, with `Playout`), and that the
playout length stays within its limits (`LenOk`). Ghost
history fields record what those clauses speak of. `JitterRuns` runs any operations in any order.

**Feedback protocols.** `NackWords` and `NackBatch` say which missing numbers a NACK word, and a batch
of them, requests; `NackLoop` collects and answers words; `RtcpFraming` and `RtcpBuilder` put compound
packets together and take them apart; `FeedbackLoop` joins all of these into one round from missing
numbers to resent packets, or to a retransmission buffer emptied by a PLI or FIR. `DtmfPlan` gives the packets that digits call for, `DtmfSenders` and
`DtmfReceivers` are the two ends, and `DtmfLoop` joins them over a channel that loses, duplicates and
reorders. `DtlsFilters` is the queue that keeps datagram boundaries.

**Reception statistics.** `ReceptionStats` has extended sequence numbers and interval loss,
`ReportFields` the fixed-width fields.

**Byte buffer.** `ByteBuffers` is the sliding buffer, a byte queue in one array.

`Basics` holds the integer types and a few shared facts.

## Reading the models

- Header fields of jitter-buffer packets are kept in host order; the byte swap is a bijection that
  fixes the sentinel 0. In NACK words, where two swapped halves share one word, the swap is written out.
- Sequence numbers are 16 bits wide and timestamps and bit rates 32; their wrap-around is written out.
  Statistics and allocation counters are unbounded.
- An integer hash is a map whose insertion replaces, a memory BIO a byte FIFO, a mutex does nothing.
  Clock readings, the allocator's answer and the timer's sample counts are parameters; a pop of a NACK
  word reads the clock once for each number that it judges or stamps.
- The frame counter is kept as an integer, and compared as the 32-bit number that the source holds.
- Where an expression is undefined for 32-bit signed arithmetic, the wrapped value is used.
- RTCP packet types and formats, and the numbers of SDES items, are those registered for RFC 3550,
  RFC 4585 and RFC 5104; the size of the RTCP message buffer is taken to be 4 + 16384 bytes.

## What does not hold

Several plausible properties fail, and the exact condition is proved instead.

- Two NACK words of one batch can ask for the same number, if a number requested earlier comes due
  in between (`BatchMayOverlap`, `OverlapInBuffer`, `PopsOverlapIff`, `TwoPopsOverlapIff`).
- A missing number that is due is given up without having been requested while the playout target is
  below the playout length, as before the first read (`NothingAskedEarly`, `GivenUpIff`).
- What is due and stored is not resent if a PLI goes in the same packet as its words, unless the sender
  only receives: the PLI comes first and empties the retransmission buffer (`AnswersDue`, `Round`).
- The frame counter of a video buffer falls short of the marks in the list once a packet is put that has
  the internal mark already on, version 1, and does not end a frame (`MiscountMarked`,
  `FramesExactHere`). Such a packet passes the version check of the read path if it carries the ZRTP
  cookie (custom_media/src/switch_rtp.c:5769).
- The playout length leaves its limits when it is shortened from 0 (`StepStaysIff`). No buffer of the
  program has such a minimum: custom_media/src/switch_rtp.c:4690 and 8550, and
  custom_media/src/switch_core_media.c:2440, 9094 and 9430, see to that.
- Of the ends of a digit that arrive in order the first does not complete it, if its last packet came
  2000 calls or more before (`CompletesIff`).
- Without a timer a pause between digits holds nothing back, unless audio went out during one before
  (`PauseNotHeld`, `HeldUntil`).
- The loss fraction is wrong once 2^24 packets are lost, unless all are (`FractionExactIff`).
- Cumulative loss outside 24 signed bits does not survive its field (`LostRoundTripIff`).
- A TMMBR item decodes to what was encoded for two residues of the mantissa only (`ItemRightIff`): the
  third byte shifts right where it should shift left. Above 2^32 - 2^15 the exponent search fails.
- Closing the interval at reports without a block, as in the unpatched file, invents losses
  (`BlocklessCloseHarmlessIff`, `BlocklessCloseInventsLoss`).
- The byte buffer can hold more than its maximum, and then reports almost 2^64 free bytes
  (`OverfillsIff`, `HoldMoreThanMax`, `FreespaceHonestIff`).
- A telephone event packet more than 100 numbers late is accepted again (`AcceptsIff`).

## Model

| member | source | states |
|---|---|---|
| `JitterSort.SortNodes` | custom_media/src/switch_jitterbuffer.c:125-201 | The in-place bottom-up merge sort ends with a well-formed doubly linked list of exactly the input nodes, stably sorted: free nodes first, then visible ones by ascending number |
| `JitterNodes.NodeCmpIsPreorder` | custom_media/src/switch_jitterbuffer.c:113-122 | The comparison's "not after" test is the order of one integer key, so it is a total preorder |
| `JitterSort.MergePairs` | custom_media/src/switch_jitterbuffer.c:142-189 | One pass over the list relinks it into what merging neighbouring runs gives |
| `JitterSort.SortRound` | custom_media/src/switch_jitterbuffer.c:133-199 | A pass keeps the elements, doubles the length of the sorted runs, and reports how many merges it took |
| `StableMerge.MergeStable` | custom_media/src/switch_jitterbuffer.c:157-184 | A merge that prefers the left run keeps the relative order of equal keys |
| `StableMerge.PassKeeps` | custom_media/src/switch_jitterbuffer.c:142-189 | A pass turns sorted runs of one length into sorted runs of twice the length and keeps each key's subsequence |
| `StableMerge.StableSortUnique` | custom_media/src/switch_jitterbuffer.c:125-201 | There is only one stably sorted arrangement, so the sort's contract determines its result |
| `JitterBuffers.JitterBuffer.PushToTop` | custom_media/src/switch_jitterbuffer.c:257-280 | Moves one node to the front and leaves the order of the others; the list stays doubly linked |
| `JitterBuffers.JitterBuffer.HideNode` | custom_media/src/switch_jitterbuffer.c:282-309 | Exactly one node stops being visible, its number leaves the index, its frame is uncounted; list, counters and index still agree |
| `JitterBuffers.JitterBuffer.HideNodes` | custom_media/src/switch_jitterbuffer.c:318-327 | Afterwards no node is visible and the index is empty |
| `JitterBuffers.JitterBuffer.SortFreeNodes` | custom_media/src/switch_jitterbuffer.c:311-316 | Sorting keeps the node set and everything but the order |
| `JitterBuffers.JitterBuffer.DropTs` | custom_media/src/switch_jitterbuffer.c:329-349 | Exactly the visible nodes with that timestamp are hidden |
| `JitterBuffers.JitterBuffer.FindLowestSeq` | custom_media/src/switch_jitterbuffer.c:351-368 | Finds a visible node whose number is minimal among those that qualify, or none if none does |
| `JitterBuffers.JitterBuffer.NewNode` | custom_media/src/switch_jitterbuffer.c:206-255 | Shows a free node, allocates one within the pool's bound, or resets a full buffer; list, counters, index and bound are kept |
| `JitterBuffers.JitterBuffer.AddNode` | custom_media/src/switch_jitterbuffer.c:626-705 | Either buffers the packet under its number, over any earlier one, or, if the pool is full or the numbering jumps, empties the buffer; the highest packet written and the frame mark follow |
| `JitterBuffers.JitterBuffer.Reset` | custom_media/src/switch_jitterbuffer.c:931-972 | Nothing stays visible, indexed or missing, and every packet thrown away is accounted for |
| `JitterBuffers.JitterBuffer.PutPacket` | custom_media/src/switch_jitterbuffer.c:1190-1264 | Keeps all invariants and says, for each of ignored, emptying, gap and ordinary packets, what can be looked up, what the log, the received numbers, the pending ones and their stamps, the next expected number, the playout length, the highest packet written and the frame count are afterwards; only the packet put in is added to what is held |
| `JitterBuffers.JitterBuffer.TrackArrival` | custom_media/src/switch_jitterbuffer.c:1212-1249 | The pending numbers with their stamps and the next expected number change as the loss tracker says, and the playout length grows for packets too late and for wide gaps |
| `JitterBuffers.EndsIff` | custom_media/src/switch_jitterbuffer.c:659-690 | A packet ends a frame exactly if its number is not behind the highest written and its timestamp is ahead of the one marked last, or has wrapped |
| `JitterBuffers.FramesAreRises` | custom_media/src/switch_jitterbuffer.c:659-690 | Of packets put in order, however many, those end a frame at which the timestamp rises |
| `JitterRuns.PutInOrder` | custom_media/src/switch_jitterbuffer.c:626-705 | After packets put in order into an empty video buffer the frame counter is the number of times that the timestamp rose |
| `JitterBuffers.JitterBuffer.JumpsIff` | custom_media/src/switch_jitterbuffer.c:652-658 | The numbering jumps exactly if it is off by a hundred numbers or fifty seconds; across a wrap of the numbers one counts less, and across one of the timestamps there is no jump |
| `JitterBuffers.JitterBuffer.PoolFullIff` | custom_media/src/switch_jitterbuffer.c:206-235 | The pool is full exactly if it holds one packet more than its limit |
| `JitterBuffers.JitterBuffer.FrameInc` | custom_media/src/switch_jitterbuffer.c:486-526 | The playout length moves by one frame in 32-bit arithmetic and stays within sound limits; the longest length follows |
| `JitterBuffers.StepStaysIff` | custom_media/src/switch_jitterbuffer.c:486-526 | A step keeps a length within its limits exactly unless it wraps: down from 0, or up from the greatest length |
| `JitterBuffers.FrameIncIs` | custom_media/src/switch_jitterbuffer.c:486-526 | Short of the ends of the 32-bit range a step moves the length by one frame as far as its limits allow |
| `JitterBuffers.JitterBuffer.IndexIsExactHere` | custom_media/src/switch_jitterbuffer.c:626-650 | If no number was put while buffered, the index holds exactly the visible nodes, one number each |
| `JitterBuffers.MiscountMarked` | custom_media/src/switch_jitterbuffer.c:675-690 | A marked packet that is put first into a video buffer is in the list but not in the frame counter |
| `JitterBuffers.JitterBuffer.FramesExactHere` | custom_media/src/switch_jitterbuffer.c:626-705 | The frame counter counts the visible packets of audio and text. For video it is exact exactly if as many marked packets were put that ended no frame as were taken out unindexed; if no number was put while buffered, it is exact, and not too low, exactly if no marked packet was put that ended no frame |
| `JitterBuffers.JitterBuffer.ReadReady` | custom_media/src/switch_jitterbuffer.c:1300-1313 | A read is refused without a complete frame, and told to wait while the buffer is shorter than it should be, unless a text buffer is flushed |
| `JitterBuffers.JitterBuffer.CountRead` | custom_media/src/switch_jitterbuffer.c:1317-1328 | After a period with hardly a miss the playout shortens by a frame, and the period starts over |
| `JitterBuffers.HighestRead` | custom_media/src/switch_jitterbuffer.c:1372-1388 | While the numbers read stay in one half of their range the number kept is the highest read, and the timestamp that of the last packet, or for video of some packet |
| `JitterBuffers.JitterBuffer.SkipAhead` | custom_media/src/switch_jitterbuffer.c:786-812 | Looks at the next ten numbers after a missing video number |
| `JitterBuffers.JitterBuffer.NextPacketBySeq` | custom_media/src/switch_jitterbuffer.c:740-819 | Yields the node under the target if it is buffered, and without a target the lowest; otherwise an audio or text target moves on by one, and a video one takes the first of the next ten numbers, unless that packet is the last of its frame or of the frame read last: then nothing of its frame is left and the lowest of the rest is taken |
| `JitterBuffers.JitterBuffer.PlaysOn` | custom_media/src/switch_jitterbuffer.c:786-812 | A packet played on with behind a missing one has no marker and is not of the frame read last |
| `JitterBuffers.JitterBuffer.Poll` | custom_media/src/switch_jitterbuffer.c:905-919 | A poll counts a short text buffer that holds anything down, and says whether it is long enough or flushed; no other buffer is changed |
| `JitterBuffers.TenthPollFlushes` | custom_media/src/switch_jitterbuffer.c:905-919 | The tenth poll of a short text buffer flushes it, and none before |
| `JitterBuffers.JitterBuffer.GetPacket` | custom_media/src/switch_jitterbuffer.c:1292-1472 | A read that finds enough buffered delivers the one buffered packet that the target calls for, with its version restored, takes it out and moves the target past it; any other delivers nothing; behind a missing target no packet is delivered that has the marker or the timestamp read last, and the frame of one is gone; an audio or text read plays exactly the target's number, conceals it or restarts, and adds one slot to the history; all invariants are kept |
| `JitterRuns.Run` | custom_media/src/switch_jitterbuffer.c:1108-1472 | Over any run of puts, reads, pops and resets of a buffer of any kind each packet handed out is one put in before, by an operation of its own |
| `JitterBuffers.JitterBuffer.GetPacketBySeq` | custom_media/src/switch_jitterbuffer.c:1266-1285 | Finds what is stored under the number, with the version restored, or nothing; in a retransmission buffer that is what its log says, all of it unless it has been read from |
| `JitterBuffers.JitterBuffer.StoredIsLatest` | custom_media/src/switch_jitterbuffer.c:1266-1285 | What can be looked up in a retransmission buffer is the last packet put under each number since it was emptied |
| `JitterBuffers.JitterBuffer.constructor` | custom_media/src/switch_jitterbuffer.c:1054-1083 | A new buffer satisfies the invariants and is empty |
| `Playout.EachNumberOnce` | custom_media/src/switch_jitterbuffer.c:740-819 | No number is played twice between resets, so a concealed one is never delivered |
| `Playout.LateArrivalNeverPlayed` | custom_media/src/switch_jitterbuffer.c:1292-1472 | A packet whose slot has passed is delivered in no later slot |
| `JitterBuffers.JitterBuffer.LateIsLost` | custom_media/src/switch_jitterbuffer.c:1292-1472 | The same of every reachable state of an audio or text buffer |
| `MissingTracker.MissingIsExact` | custom_media/src/switch_jitterbuffer.c:1212-1249 | After any run of arrivals without wrap, too wide a gap or more than 1000 late, the missing set is the numbers from the first to the next expected that were not received |
| `MissingTracker.RetransmissionClearsItself` | custom_media/src/switch_jitterbuffer.c:1218-1225 | A late arrival takes itself off the missing set and nothing else |
| `MissingTracker.GapRestarts` | custom_media/src/switch_jitterbuffer.c:1227-1231 | Too wide a gap leaves what a first arrival would have left |
| `MissingTracker.ZeroNeverMissing` | custom_media/src/switch_jitterbuffer.c:1212-1249 | Number 0 is never marked missing |
| `JitterBuffers.JitterBuffer.MissingIsExactHere` | custom_media/src/switch_jitterbuffer.c:1190-1264 | The same of every reachable state of a receiving video buffer |
| `SendLog.LastPutWins` | custom_media/src/switch_jitterbuffer.c:1266-1285 | Of several packets logged under a number the last is found |
| `SendLog.NeverPutNotFound` | custom_media/src/switch_jitterbuffer.c:1266-1285 | A number never logged is not found |
| `SendLog.RestoredIs` | custom_media/src/switch_jitterbuffer.c:1266-1285 | A packet goes out with version 2 and otherwise unchanged |
| `JitterBuffers.JitterBuffer.PopNack` | custom_media/src/switch_jitterbuffer.c:1108-1188 | One pop is a step of the pending map: due numbers that are too old are given up, the word asks for the least due one and all missing ones of the sixteen after it, and these are stamped, each number judged and stamped by a clock reading of its own |
| `JitterBuffers.JitterBuffer.ScanMissing` | custom_media/src/switch_jitterbuffer.c:1126-1161 | Gives up what is due and too old when looked at and finds the least other number that is due when looked at |
| `JitterBuffers.JitterBuffer.StampFollowing` | custom_media/src/switch_jitterbuffer.c:1165-1176 | Stamps the missing numbers among the next sixteen and returns their bitmap |
| `NackWords.WordRoundTrip` | custom_media/src/switch_rtp.c:6434-6505 | The numbers looked up for a word are its first and the missing ones of the sixteen that follow, modulo 2^16 and through both byte swaps |
| `NackBatch.BatchDisjoint` | custom_media/src/switch_rtp.c:2068-2081 | The words of one batch ask for disjoint sets, while the clock moves less than the renack time and no pending number comes due |
| `NackBatch.BatchCovers` | custom_media/src/switch_rtp.c:2068-2081 | A batch that ends by itself has asked for every due number that is not too old |
| `NackBatch.PopsOverlapIff` | custom_media/src/switch_jitterbuffer.c:1108-1188 | Two words of quick pops, one anywhere after the other, overlap exactly if the least number that can be requested by the second pop is one of the sixteen below the first word |
| `NackBatch.TwoPopsOverlapIff` | custom_media/src/switch_jitterbuffer.c:1108-1188 | For two pops in a row the same can be read off before the first: some number below the first word comes due in between |
| `NackBatch.ZeroWordIff` | custom_media/src/switch_jitterbuffer.c:1165-1187 | A pop returns 0 exactly if no pending number is due and recent enough |
| `NackBatch.PopDetermined` | custom_media/src/switch_jitterbuffer.c:1108-1188 | What is pending and the clock readings determine the word and what is pending afterwards |
| `NackBatch.DueIff` | custom_media/src/switch_jitterbuffer.c:1138-1144 | A number is due exactly if it was never requested or at least 100 milliseconds ago |
| `NackBatch.GivenUpIff` | custom_media/src/switch_jitterbuffer.c:1148-1153 | A due number is given up exactly if it is more than the playout length behind the target, or the target is below the playout length and the unsigned difference wraps past it |
| `NackBatch.NothingAskedEarly` | custom_media/src/switch_jitterbuffer.c:1148-1153 | While the target is below the playout length (of at most 0xFFFF0000), as before the first read, nothing is requested |
| `NackBatch.BatchMayOverlap` | custom_media/src/switch_jitterbuffer.c:1108-1188 | Two pops 10 microseconds apart that both ask for number 10, at target 1 and frame length 1: disjointness needs the condition that nothing comes due |
| `JitterRuns.OverlapInBuffer` | custom_media/src/switch_jitterbuffer.c:1108-1472 | Puts, a read and pops of one video buffer, new at the start, that lead to two such pops |
| `NackLoop.CollectNacks` | custom_media/src/switch_rtp.c:2066-2081 | The words collected are those of a batch of pops, up to ten or the first zero, which read the clock one after the other |
| `NackLoop.RisingClock` | custom_media/src/switch_jitterbuffer.c:1142-1176 | With a clock that does not run backwards the pops of a batch lie between consecutive times |
| `NackLoop.HandleNack` | custom_media/src/switch_rtp.c:6434-6505 | Resends, in order, what the retransmission buffer holds under the numbers of the word, which is what its log says unless it has been read from |
| `NackLoop.AnswerIsExact` | custom_media/src/switch_rtp.c:6434-6505 | A packet is resent exactly if the receiver's word requested its number and it is the last one stored there; none carries the internal mark |
| `FeedbackLoop.RoundResends` | custom_media/src/switch_rtp.c:6434-6505 | A quick batch makes the sender resend no packet twice, and, if it ended by itself, every stored packet whose number was due |
| `FeedbackLoop.WordOnWire` | custom_media/src/switch_jitterbuffer.c:1165-1182 | In memory a word is the number and the bitmap, each with its high byte first |
| `FeedbackLoop.PopReports` | custom_media/src/switch_jitterbuffer.c:1108-1188 | The NACK for a popped word reports, in network order, the least number that could be requested and which of the sixteen after it are missing |
| `FeedbackLoop.BatchReports` | custom_media/src/switch_rtp.c:2212-2239 | The same of every word of a batch |
| `FeedbackLoop.WordLooksUp` | custom_media/src/switch_rtp.c:6434-6505 | A word as it comes off the wire makes its receiver look up the number in its first two bytes and those after it whose bits are set |
| `FeedbackLoop.Answer` | custom_media/src/switch_rtp.c:6518-6570 | The calls of a feedback packet are answered in turn from what is stored by then; a PLI or FIR empties the retransmission buffer, unless the stream only receives |
| `FeedbackLoop.AnswersDue` | custom_media/src/switch_rtp.c:6526-6562 | A PLI, which goes first in the packet, leaves its words nothing to find; a FIR, which goes last, lets them be answered; after either nothing is stored, unless the stream only receives |
| `FeedbackLoop.Round` | custom_media/src/switch_rtp.c:2066-2282 | A whole round, from one buffer's missing numbers through the compound packet to the other's resent packets: none twice; what was due, not too old and stored is resent exactly if no PLI goes along or the sender only receives, and otherwise nothing is; after a PLI or FIR that is heeded nothing is stored |
| `DtmfPlan.TrainCloses` | custom_media/src/switch_rtp.c:5348-5393 | The packets of a digit close with exactly three equal end packets whose duration is what was asked for rounded up to whole intervals |
| `DtmfPlan.TrainGrows` | custom_media/src/switch_rtp.c:5339-5356 | All packets of a one-segment digit carry its timestamp, and the duration never falls |
| `DtmfPlan.OneSegment` | custom_media/src/switch_rtp.c:5342-5346 | While the total fits 16 bits there is one segment |
| `DtmfPlan.PlansAreOk` | custom_media/src/switch_rtp.c:5323-5482 | In the plan for any digits nothing follows an end but copies of it, and digits do not interleave |
| `DtmfPlan.EndsRoundedUp` | custom_media/src/switch_rtp.c:5348-5356 | Every planned end reports at least the duration asked for, and less than one interval more unless two intervals are needed anyway |
| `DtmfPlan.LoadCarried` | custom_media/src/switch_rtp.c:5450-5456 | The four payload bytes give back event, end bit and duration, and are never blank |
| `DtmfPlan.PayloadReads` | custom_media/src/switch_rtp.c:606-640 | The end bit is the highest of the second byte, the duration the last two bytes, high byte first, and a payload is blank if its first four bytes are zero |
| `DtmfSenders.DtmfSender.Queue` | custom_media/src/switch_rtp.c:7852-7876 | Appends a digit of at least the minimum duration unless the queue is full |
| `DtmfSenders.DtmfSender.Do2833` | custom_media/src/switch_rtp.c:5323-5482 | What has been sent is always the beginning of the plan for the digits taken from the queue; digits taken and queued together never change; each call sends one beat or starts one digit, as the delays allow; numbers and timestamps rise until they wrap |
| `DtmfSenders.DtmfSender.SendBeat` | custom_media/src/switch_rtp.c:5328-5396 | Sends the plan's next beat, three packets at the end, and advances clock and number |
| `DtmfSenders.DtmfSender.NextDigit` | custom_media/src/switch_rtp.c:5398-5481 | Takes the next digit if no delay holds it; w and W only set a delay |
| `DtmfSenders.DtmfSender.Hold` | custom_media/src/switch_rtp.c:5401-5425 | Whether a delay still holds the next digit, with and without timer |
| `DtmfSenders.DtmfSender.SetDelay` | custom_media/src/switch_rtp.c:5302-5321 | The pause in samples, and the write timestamp moved past it |
| `DtmfSenders.Run` | custom_media/src/switch_rtp.c:5302-5482 | Over any run of queueing, calls and audio of a sender with a timer every digit starts at least the interdigit delay after any earlier one has ended |
| `DtmfSenders.HeldByTimer` | custom_media/src/switch_rtp.c:5401-5410 | With a timer a pause holds the next digit until its time is up once audio has gone out, and ten times as long if none does |
| `DtmfSenders.HeldUntil` | custom_media/src/switch_rtp.c:5411-5425 | Without timer a pause holds the next digit for as many calls as intervals are still to be waited, less one |
| `DtmfSenders.PauseNotHeld` | custom_media/src/switch_rtp.c:5411-5425 | Without timer a pause holds nothing back unless audio went out during one before |
| `DtmfSenders.WriteTimeAdvances` | custom_media/src/switch_rtp.c:5348-5393 | The write timestamp moves on by an interval with each beat |
| `DtmfSenders.DtmfSender.WriteAudio` | custom_media/src/switch_rtp.c:8395-8606 | Audio goes out only between digits, takes a number, and starts a pause that was called for |
| `DtmfSenders.DtmfSender.SentIsPlanned` | custom_media/src/switch_rtp.c:5323-5482 | Each packet sent carries the load planned for its place |
| `DtmfReceivers.DtmfReceiver.Handle` | custom_media/src/switch_rtp.c:567-794 | One call changes the receiver's state and queue as the step function says, and returns the matching action |
| `DtmfReceivers.DtmfReceiver.Accept` | custom_media/src/switch_rtp.c:660-770 | An accepted packet begins, continues or completes a digit |
| `DtmfReceivers.SeenWhole` | custom_media/src/switch_rtp.c:606-633 | A payload of four bytes is looked at as it is, whatever the buffer held before |
| `DtmfReceivers.AcceptsIff` | custom_media/src/switch_rtp.c:652-661 | A packet is accepted exactly if it is ahead of all accepted before, or more than 100 behind and not number 0 |
| `DtmfReceivers.LongEvent` | custom_media/src/switch_rtp.c:697-745 | The digit that an end completes lasts as long as the end says and 65535 samples more for each time that the duration wrapped |
| `DtmfLoop.HearFollows` | custom_media/src/switch_rtp.c:567-794 | For packets of the sender's, at most 100 late, a call does to the receiver exactly what it does to the abstract course of the run |
| `DtmfLoop.RunInOrder` | custom_media/src/switch_rtp.c:567-794 | Over any run digits complete in the order sent, each at most once |
| `DtmfLoop.LastIsFurthest` | custom_media/src/switch_rtp.c:652-666 | The packet a course remembers is the one furthest on of all that arrived |
| `DtmfLoop.CompletedIff` | custom_media/src/switch_rtp.c:708-753 | A digit completes exactly if one of its ends arrives ahead of everything before, with the packet before that of another digit or no end and not expired |
| `DtmfLoop.CompletesIff` | custom_media/src/switch_rtp.c:584-594 | Of the ends of a digit that arrive ahead exactly the first completes it, unless the digit has expired by then |
| `DtmfLoop.Listen` | custom_media/src/switch_rtp.c:567-794 | The receiver queues exactly the digits that the course of the run completes |
| `DtmfLoop.SenderStreams` | custom_media/src/switch_rtp.c:5323-5482 | Every sender's output is such a stream until its numbers wrap, for digits of one segment with distinct nonzero timestamps |
| `DtmfLoop.TimedApart` | custom_media/src/switch_rtp.c:5459-5460 | Timestamps that rise are distinct and not zero |
| `DtmfLoop.Converse` | custom_media/src/switch_rtp.c:567-794 | End to end: under loss, duplication and displacement by at most 100 the digits queued are an in-order, at-most-once subsequence of those sent, with their durations; and each is queued exactly if one of its ends completes it |
| `RtcpBuilder.RtcpSender.Put` | custom_media/src/switch_rtp.c:2189-2355 | Writes bytes at a position and nothing elsewhere |
| `RtcpBuilder.RtcpSender.AddReport` | custom_media/src/switch_rtp.c:2153-2183 | Starts the packet with a receiver or sender report of zero or one block and the right length |
| `RtcpBuilder.RtcpSender.AddPli` | custom_media/src/switch_rtp.c:2186-2210 | Adds a PLI if one is asked for, which is then no longer owed |
| `RtcpBuilder.RtcpSender.AddNacks` | custom_media/src/switch_rtp.c:2212-2239 | Adds one NACK for each word, in memory order |
| `RtcpBuilder.RtcpSender.AddFir` | custom_media/src/switch_rtp.c:2241-2282 | Adds a FIR with its sequence number, which advances |
| `RtcpBuilder.RtcpSender.AddRates` | custom_media/src/switch_rtp.c:2288-2320 | Adds first the TMMBR, then the TMMBN that is owed |
| `RtcpBuilder.RtcpSender.AddSdes` | custom_media/src/switch_rtp.c:2322-2355 | Adds the source description, padded to whole words |
| `RtcpBuilder.RtcpSender.Build` | custom_media/src/switch_rtp.c:2123-2355 | The buffer holds the wire form of exactly the sub-packets that the round calls for, and what was sent is no longer owed |
| `RtcpFraming.WalkUndoesWire` | custom_media/src/switch_rtp.c:6867-6898 | Any wire form of fitting sub-packets is taken apart into them, in order, and nothing remains |
| `RtcpFraming.WireUndoesWalkIff` | custom_media/src/switch_rtp.c:6867-6898 | A datagram of whole words is the wire form of what the walk visits exactly if it holds nothing but whole sub-packets without padding bit |
| `RtcpFraming.WalkTiles` | custom_media/src/switch_rtp.c:6867-6898 | On any input the slices are inside the datagram and consecutive, and the walk ends at a bad header or with less than four bytes left |
| `RtcpFraming.SlicesDisjoint` | custom_media/src/switch_rtp.c:6886-6898 | No two slices overlap |
| `RtcpFraming.UnpackedIsWalk` | custom_media/src/switch_rtp.c:6884-6895 | The sub-packets are what the visited slices hold |
| `RtcpFraming.ReadNacks` | custom_media/src/switch_rtp.c:6550-6562 | Reads as many words of a NACK as its header claims, as far as the buffer goes, and none of anything else |
| `RtcpFraming.ReadCalls` | custom_media/src/switch_rtp.c:6526-6562 | What a sub-packet calls for: a refresh if it is a PLI or a FIR of either form, what each word asks for if it is a NACK, and nothing otherwise |
| `RtcpFraming.CallsOfWhole` | custom_media/src/switch_rtp.c:6526-6562 | If no sub-packet claims more than is left, what is called for is what the sub-packets visited say |
| `RtcpFraming.WireRead` | custom_media/src/switch_rtp.c:6846-6902 | What is read off a wire form are its sub-packets and what they call for, whatever the buffer holds behind it |
| `RtcpFraming.CallsOfType` | custom_media/src/switch_rtp.c:6515-6562 | A sub-packet calls for a refresh exactly if it has type 192, or type 206 and format 1 or 4, for words only with type 205 and format 1, and otherwise for nothing |
| `RtcpFraming.ProcessPacket` | custom_media/src/switch_rtp.c:6846-6902 | Which datagrams are refused; otherwise, for any datagram, the slices visited, the bytes remaining, how it ended, and what was called for, in order: a refresh exactly if a PLI or FIR was visited, and a word exactly if a NACK with it was |
| `RtcpBuilder.BuiltIsUndone` | custom_media/src/switch_rtp.c:6846-6902 | Whatever a round sends, the walker visits exactly the sub-packets built, nothing remains, and what is called for is the PLI, the words and the FIR that were due, in that order |
| `RtcpBuilder.CompoundKinds` | custom_media/src/switch_rtp.c:2123-2355 | Which sub-packets a round sends, by type and format, in order |
| `RtcpBuilder.CompoundSpeaks` | custom_media/src/switch_rtp.c:2153-2320 | Every sub-packet names its sender first; feedback then names the source it is about, and TMMBR, TMMBN and FIR do so in their items; reports hold their information and block |
| `RtcpBuilder.SdesSays` | custom_media/src/switch_rtp.c:2322-2355 | The source description gives the SSRC in hexadecimal as the CNAME and then the note, and is closed and padded with zero or stale bytes |
| `RtcpBuilder.SendRound` | custom_media/src/switch_rtp.c:2123-2355 | The same through sender buffer and receiver handler: what the walker unpacks are the sub-packets due, each from the sender and about the right source |
| `ReceptionStats.Reception.RtcpStats` | custom_media/src/switch_rtp.c:1930-1975 | One packet changes the statistics as the step function says |
| `ReceptionStats.Reception.StatsInit` | install/patch/switch_rtp.c:1892-1912 | All statistics start over from the packet |
| `ReceptionStats.Reception.Report` | install/patch/switch_rtp.c:1832-1890 | A report with block adds the interval's loss and closes the interval; one without leaves everything |
| `ReceptionStats.ExtendedSequence` | custom_media/src/switch_rtp.c:1930-1975 | Through any number of wraps the extended number is the highest true index and the cycle its upper half, if each arrival is less than 3000 ahead and 100 behind; every packet is counted |
| `ReceptionStats.CountedIff` | custom_media/src/switch_rtp.c:1940-1975 | Within half the number space a packet is counted exactly if it is that near |
| `ReceptionStats.NewSource` | custom_media/src/switch_rtp.c:1964-1975 | A packet of a new source that is in sync starts all statistics over; any other keeps them |
| `ReceptionStats.ResyncIff` | custom_media/src/switch_rtp.c:1950-1962 | The statistics start over at the second of two packets out of sync exactly if their numbers are next to each other; until then nothing changes |
| `ReceptionStats.LossTelescopes` | install/patch/switch_rtp.c:1832-1990 | Over any run of packets and reports, packets out of sync included, that does not start over, the expected counts add up to the span of numbers, and the cumulative loss is that span less the packets counted plus the surplus of intervals |
| `ReceptionStats.BlocklessCloseHarmlessIff` | custom_media/src/switch_rtp.c:2352-2362 | Closing the interval at a report without block, as here, is harmless exactly if before the first block no packet was counted, or after it as many as were expected |
| `ReceptionStats.BlocklessCloseInventsLoss` | custom_media/src/switch_rtp.c:2352-2362 | Before the first block it makes a stream that lost nothing be reported as having lost all of it |
| `ReceptionStats.LosslessStart` | custom_media/src/switch_rtp.c:1930-1975 | Two packets bring any stream into that situation |
| `ReportFields.FractionExactIff` | install/patch/switch_rtp.c:1849-1855 | The fraction is min(255, 256 * lost / expected) exactly if lost has 24 bits or everything was lost |
| `ReportFields.UnpatchedReportsNothingIff` | custom_media/src/switch_rtp.c:1838-1842 | Without the special case the fraction is 0 exactly if everything or less than 1/256 was lost |
| `ReportFields.PercentInRange` | install/patch/switch_rtp.c:6757-6758 | The decoded percentage is in 0..100, is 100 only for 255, and rises with the fraction |
| `ReportFields.PercentIs` | install/patch/switch_rtp.c:6757-6758 | It is the fraction of 255 in percent, rounded down |
| `ReportFields.LostRoundTripIff` | install/patch/switch_rtp.c:1857-1863 | Cumulative loss survives the 24-bit field and its decoding exactly if it is in -2^23 .. 2^23 - 1 |
| `ReportFields.CalcBwExp` | custom_media/src/switch_rtp.c:2002-2027 | For bit rates up to 2^32 - 2^15 the least exponent, at most 15, with a 17-bit mantissa; above that exponent 0 |
| `ReportFields.RelativeError` | custom_media/src/switch_rtp.c:2012-2020 | The mantissa keeps 16 significant bits, so less than one part in 2^16 - 1 is lost |
| `ReportFields.HighPartsRight` | custom_media/src/switch_rtp.c:2022-2023 | The first two bytes give back the exponent and all but seven bits of the mantissa |
| `ReportFields.ItemRightIff` | custom_media/src/switch_rtp.c:2022-2025 | The item decodes to what was encoded exactly if the mantissa is 0 or 341 modulo 512 |
| `ByteBuffers.ByteBuffer.Write` | custom_media/src/switch_buffer.c:289-344 | Appends all or nothing, across compaction and growth; exactly when it is accepted, and how far the allocation grows |
| `ByteBuffers.ByteBuffer.Read` | custom_media/src/switch_buffer.c:234-252 | Takes from the front |
| `ByteBuffers.ByteBuffer.Peek` | custom_media/src/switch_buffer.c:254-270 | Looks at the front and changes nothing |
| `ByteBuffers.ByteBuffer.Toss` | custom_media/src/switch_buffer.c:193-210 | Discards from the front |
| `ByteBuffers.ByteBuffer.Zero` | custom_media/src/switch_buffer.c:346-353 | Empties any buffer |
| `ByteBuffers.ByteBuffer.Zwrite` | custom_media/src/switch_buffer.c:355-369 | Appends, or replaces everything if there is no room |
| `ByteBuffers.ByteBuffer.SlideWrite` | custom_media/src/switch_buffer.c:371-385 | What is left is a suffix of old content and new bytes, with all new bytes if they fit the allocation |
| `ByteBuffers.ByteBuffer.Compact` | custom_media/src/switch_buffer.c:303-309 | Moves the content to the front of the array unchanged |
| `ByteBuffers.ByteBuffer.Grow` | custom_media/src/switch_buffer.c:310-330 | Keeps the content in a larger array, or everything if memory is refused |
| `ByteBuffers.ByteBuffer.FreespaceHonestIff` | custom_media/src/switch_buffer.c:176-186 | What is reported as free is accepted exactly unless a dynamic buffer holds more than its maximum |
| `ByteBuffers.ByteBuffer.FreespaceIsAll` | custom_media/src/switch_buffer.c:176-186 | What is reported as free is all that is accepted, but for a dynamic buffer whose array is larger than its maximum, or that has none |
| `ByteBuffers.ByteBuffer.OverfillsIff` | custom_media/src/switch_buffer.c:310-330 | A write leaves a dynamic buffer with more than its maximum exactly if what is then in it fits the allocation but not the maximum |
| `ByteBuffers.HoldMoreThanMax` | custom_media/src/switch_buffer.c:310-330 | A buffer that comes to hold more than its maximum |
| `ByteBuffers.Run` | custom_media/src/switch_buffer.c:234-344 | Over any run of writes and reads the bytes read and then those left are the bytes that were there and then those accepted, in order |
| `ByteBuffers.ByteBuffer.ReadLoops` | custom_media/src/switch_buffer.c:217-232 | Any run of looped reads returns what the looping function says |
| `ByteBuffers.PlaysExactly` | custom_media/src/switch_buffer.c:217-232 | With loops = k any run of positive reads gives a prefix of the data k times, all of it after as many reads as there are bytes, and then, and only then, nothing |
| `ByteBuffers.LoopedRunReaches` | custom_media/src/switch_buffer.c:217-232 | Enough positive reads take all that was to come |
| `ByteBuffers.PlayLoops` | custom_media/src/switch_buffer.c:85-97 | The same of a partition that is created, given its number of loops, and read |
| `ByteBuffers.LoopedRunTakes` | custom_media/src/switch_buffer.c:217-232 | Such a run takes its bytes off what is still to come, and once that is used up gives nothing |
| `ByteBuffers.PlaysForever` | custom_media/src/switch_buffer.c:217-232 | Negative loops give a prefix of the data repeated without end |
| `ByteBuffers.ByteBuffer.SetPartitionData` | custom_media/src/switch_buffer.c:74-83 | Points a partition at other data; other buffers refuse |
| `ByteBuffers.ByteBuffer.CreatePartition` | custom_media/src/switch_buffer.c:85-97 | A partition starts with all of its data readable |
| `ByteBuffers.ByteBuffer.CreateDynamic` | custom_media/src/switch_buffer.c:113-142 | A dynamic buffer starts empty at its start length |
| `DtlsFilters.Filter.Write` | custom_media/src/switch_rtp.c:3447-3490 | Queues what the FIFO took of one datagram: its bytes in the FIFO, the FIFO's answer in a cell that no other list holds |
| `DtlsFilters.Filter.TakePending` | custom_media/src/switch_rtp.c:3521-3541 | Takes the first size and moves its cell to the unused list; tail stays the last pending cell |
| `DtlsFilters.Filter.CellToUse` | custom_media/src/switch_rtp.c:3472-3480 | Reuses the first unused cell, and loses the others, or makes one |
| `DtlsFilters.Filter.Drain` | custom_media/src/switch_rtp.c:3302-3320 | Ends, and sends the datagrams as they were taken, in order, each once and whole, up to the first of which nothing was taken |
| `DtlsFilters.Run` | custom_media/src/switch_rtp.c:3302-3541 | Over any run of writes and drains each datagram of which the FIFO took something has been sent once, in order, or is still queued |
| `DtlsFilters.AllWhole` | custom_media/src/switch_rtp.c:3302-3320 | That is all of them exactly if something was taken of each |

## Left out

Jitter buffer:

- Timestamp mode, which rewrites sequence numbers under the index.
- The eviction loop of retransmission buffers: `BufferPacket` proves that it is never entered, since such a buffer never learns how many packets a frame has.
- Changing the frame length limits after creation, session refresh requests, and bit-rate adaptation.
- A packet's length, its truncation to the node's size, and `bad_hits`.
- The functions compiled out, and peeking at frames.
- JitterBuffers.JitterBuffer.Reset: inside a reset the frame counter may dip below zero before it is cleared; only the states between operations are constrained.

Feedback:

- RtcpFraming.ProcessPacket: a NACK that claims words behind the whole receive buffer is read up to the end of the buffer.
- SRTP, ZRTP, ICE, the OpenSSL handshake and the sockets; a write to the socket always succeeds.
- Sending the old form of FIR, whose header sets no length: its flag is taken to be clear.
- The key frame that a PLI or FIR asks for; report blocks and bit rates are carried as bytes, and what a receiver does with them is not modelled.
- DtlsFilters.Filter.Write: the FIFO takes at most what it is offered. The cells behind a reused one are lost to the unused list, as in the source.
- The flags that pass events through, ignore their duration, or bend timestamps and marker bits for particular peers, and proxied media.
- DtmfLoop.Converse: digits of one segment, at most 65536 samples less one interval. The sender's segments beyond that are modelled and planned, but not what a receiver makes of them.
- The characters of events; `w` and `W` are pauses.
- A full queue of received digits, and a session that is being torn down.
- The total duration of a digit does not wrap at 2^32 samples.
- DtmfSenders.Run: for a sender with a timer; what holds without one is said by `HeldUntil` and `PauseNotHeld`.

Statistics:

- Jitter, round trips, sender information, averages of the reported loss, and the Kalman estimators.
- ReceptionStats.LossTelescopes: the duplicate correction of the expected count, which is a parameter of `Report`, is taken to be zero, and counts stay below 2^31. A second packet out of sync next to the first starts the accounting over.

Byte buffer:

- Locks, destroying buffers and the zero-copy peek. A start length of zero leaves no array in the source and an empty one here.
