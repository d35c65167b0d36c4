# nmxptool, modelled in Dafny

nmxptool receives seismic data from a Nanometrics NaqsServer. This project models the parts
of its library that compute something, and proves what they promise:

- **The Raw Stream reorder buffer** (`nmxp_raw_stream_manage`), which takes packets that
  arrive late, twice or out of order and passes them on in sequence, with bounded buffering.
  `RawStream` is one call as a step of a state machine over values; `RawStreamStep`,
  `RawStreamRuns`, `RawStreamLate`, `RawStreamReorder` and `RawStreamFlush` prove what holds
  of every call and of every run; `RawStreamArrays` and `RawStreamBuffer` are the code as it
  is, an object with an array of pointers updated in place, each call of which is proved to
  be a step.
- **The compressed-packet decoder**: `Bundles` (one 17-byte bundle), `CompressedData` (the
  bundle loop), `CompressedPacket` (header and data), and `BundlePacking`, a sender that
  does not exist in the repository and is there to state the round trips.
- **The waveform** behind both: whatever the order of arrival, what is sent on is the
  waveform that was packed (`Waveforms`).
- **CRC-32** with its table built by doubling (`Crc32`), against the bit-at-a-time CRC of
  section 8 of RFC 1952.
- **Trimming** a packet to a time window (`Trim`).
- **Message framing** (`Framing`) over a stream that arrives in arbitrary pieces, with pauses
  (`Pauses`, `Receiving`), and from there to the packet (`DataReceiver`); **the ring of open
  mini-SEED files** (`SeedFiles`); and **channel names, patterns and selection**
  (`ChannelNames`, `ChannelSubset`).

`Packets` is the packet that decoder, trimming and reorder buffer share; `Words` holds bytes
and machine integers; `Sequences` and `Wrappers` are helpers.

A class here is an object that the source updates in place. Its methods are proved against
functions on values (`Step`, `Drain`, `Samples`, `Trimmed`, `After`, `Select`, ...), and
the theorems are about those functions. The clock, the verdict of the latency comparison,
the order that `qsort` gives to equal elements, what `recv`, `send` and `fopen` return, and
whether a directory can be made are arbitrary inputs.

Five things that the code does, and a reader might not expect, are stated as they are:

- A time-out call (NULL packet) that also takes the forced branch can send the same sequence
  number twice, when the two packets at the head of the buffer share it. `TwinIsSentTwice` is
  such a run; `OutputOrder` says that nothing else breaks the strict order.
- NULL compaction leaves the stale last pointer in the slots that it gives up
  (`RawStreamArrays.Compact`), so the slots from `n_pdlist` on are not always NULL.
  `Stream.Manage` says after which calls they are.
- One time-out call sends one gapless run of numbers, not the whole buffer
  (`RawStreamRuns.StepSends`). At shutdown the client makes a single such call for each
  channel: `OneTimeoutEmpties` says exactly when that is enough, `PacketIsLeft` is a run in
  which it is not, and `TimeoutsDrain` says how many calls always are.
- When the ring of files is full and the new file cannot be opened, the oldest file has been
  closed already and its slot is a hole: it counts as open under the new name and holds no
  file. Asked for again, the name is found, without an error and without a file to write to.
  `HoleIsReached` is such a run; `Files.Request` says that nothing else has that effect.
- A time-out of 0 seconds, which the documentation calls none (include/nmxp.h:609), is one of
  30 (lib/nmxp_base.c:205-207), and bodies are always awaited with 0. After a time-out within
  a message, header or body, the bytes already read are lost, and the client's loop goes on
  reading in the middle of the message. `AllArriveJustWhenPrompt` says exactly which waits
  keep messages from arriving as they were sent; `PhantomIsReceived` and `BodyIsReceived` are
  connections on which messages arrive that nobody sent.

## Model

| member | source | states |
|---|---|---|
| `RawStreamStep.DrainLog` | lib/nmxp.c:990-1037 | The emit loop sends exactly the numbers from last_seq_no_sent + 1 to its final value, and whatever it discards was stale at that moment |
| `RawStreamStep.DrainConserves` | lib/nmxp.c:990-1061 | Every packet in the buffer is sent, discarded or kept by the loop, as a multiset |
| `RawStreamStep.DrainSplits` | lib/nmxp.c:990-1061 | What the loop leaves of a sorted buffer is a suffix that starts at last_seq_no_sent + 2 or later; all before it is numbered at most last_seq_no_sent |
| `RawStreamStep.SortFacts` | lib/nmxp.c:952 | Whatever order qsort gives to ties, the buffer still fits and a time-out never re-bases below the number sent last, less one |
| `RawStreamStep.StepLegal` | lib/nmxp.c:834-1037 | Each event of a call is justified by last_seq_no_sent at that moment: forced packets are newer, emitted ones are next, discarded ones stale, a re-base is followed by the head it prepares for |
| `RawStreamStep.StepConserves` | lib/nmxp.c:809-1061 | Buffer plus arrival equals sent plus discarded plus new buffer, as multisets |
| `RawStreamStep.StepInv` | lib/nmxp.c:855-1061 | Every call leaves a buffer within capacity, sorted, whose head is at least last_seq_no_sent + 2, and last_seq_no_sent never goes back over a whole call |
| `RawStreamRuns.StepSends` | lib/nmxp.c:860-1037 | A call sends the forced head, just when a force is due, and then one gapless run of numbers, nothing else |
| `RawStreamRuns.StepOrder` | lib/nmxp.c:860-1037 | A call sends only newer numbers than before it, in order, and strictly so if and only if it is not a forced time-out with twins at the head |
| `RawStreamRuns.RunLegal` | lib/nmxp.c:751-1068 | In every run the invariant holds throughout and the whole log of events is legal |
| `RawStreamRuns.Conservation` | lib/nmxp.c:794-1068 | In every run from init, received equals sent plus discarded plus buffered, as multisets |
| `RawStreamRuns.DropsAreStale` | lib/nmxp.c:885-894 | In every run the branch logged as SHOULD NOT OCCUR is never taken, and a packet is discarded only when its number is at most last_seq_no_sent at that moment |
| `RawStreamRuns.DropsAreJustified` | lib/nmxp.c:999-1008 | In every run a discarded number has been sent before, or an earlier base, re-base or forced send has jumped over it |
| `RawStreamRuns.OutputOrder` | lib/nmxp.c:860-1037 | In every run emitted numbers never decrease; they increase strictly if and only if no time-out call of the run is forced with twins at the head |
| `RawStreamRuns.SentOrSkipped` | lib/nmxp.c:1009-1027 | Every number up to last_seq_no_sent has been sent or was skipped by an identified jump |
| `RawStreamRuns.JumpsAreJustified` | lib/nmxp.c:871-884 | Two packets sent one after the other differ by exactly 1, unless the later one was forced or follows a re-base directly |
| `RawStreamLate.ForcedJustWhenDue` | lib/nmxp.c:860-882 | In every call a packet is forced out if and only if it is the head and the buffer is full, or it is too late and no time-out is set |
| `RawStreamLate.LateCallsPassOldest` | lib/nmxp.c:860-884 | With no time-out set, n late calls pass the n oldest packets on, unless older ones arrive |
| `RawStreamLate.StepKeepsAbove` | lib/nmxp.c:834-1061 | Every call, forced or not, keeps exactly the packets numbered above last_seq_no_sent, with their multiplicities |
| `RawStreamLate.BufferIsWhatIsAhead` | lib/nmxp.c:794-1068 | In every run, forced sends and time-outs included, the buffer is exactly the multiset of the packets received that are numbered above last_seq_no_sent |
| `RawStreamReorder.PlainStep` | lib/nmxp.c:914-1061 | A call with a packet and no forced send extends the gapless run and keeps exactly the packets numbered above it |
| `RawStreamReorder.Reordering` | lib/nmxp.c:834-1061 | Without forced sends and time-outs, whatever the order and the duplicates, the numbers sent are f..m with m as large as the arrivals allow, and the buffer is the multiset of arrivals above m |
| `RawStreamReorder.ArrivalOrderIsIrrelevant` | lib/nmxp.c:834-1061 | Two such runs with the same packets in different orders (same base) have sent the same numbers and hold the same packets |
| `Waveforms.PieceJoins` | lib/nmxp_base.c:703-758 | The samples of consecutive pieces of a waveform, each decoded from the xn of the one before, are those of the waveform |
| `Waveforms.WaveformIsRestored` | lib/nmxp.c:834-1061 | Packets with consecutive pieces of one waveform, in any order and with duplicates, without forced sends and time-outs: the samples sent on are exactly that waveform, up to the first packet missing |
| `RawStreamReorder.TimeoutSendsHead` | lib/nmxp.c:972-1061 | A time-out call on a non-empty buffer sends the head's number first and leaves fewer packets |
| `RawStreamReorder.TimeoutsDrain` | lib/nmxp.c:972-1061 | n time-out calls empty a buffer of n packets, all of which are then sent or discarded |
| `RawStreamFlush.DrainLeaves` | lib/nmxp.c:990-1037 | The loop that starts just before or at the head stops exactly at the first missing number |
| `RawStreamFlush.ReachesAll` | lib/nmxp.c:1028-1036 | What comes before the first missing number has no gap, and it is everything if and only if there is no gap at all |
| `RawStreamFlush.SortKeepsNumbers` | lib/nmxp.c:952 | Whatever qsort does with ties, the numbers of a sorted buffer stay where they are |
| `RawStreamFlush.OneTimeoutLeaves` | lib/nmxp.c:972-1061 | One time-out call leaves exactly the numbers that wait behind the first missing one, the forced head not counted |
| `RawStreamFlush.OneTimeoutEmpties` | src/nmxptool.c:1285-1309 | The single time-out call at shutdown empties the buffer if and only if no number is missing among the packets that wait |
| `RawStreamFlush.PacketIsLeft` | src/nmxptool.c:1285-1309 | A run from init in which such a call leaves a packet behind: 5, 7 and 9 arrive, 9 stays |
| `RawStreamReorder.TwinIsSentTwice` | lib/nmxp.c:860-988 | A run from init in which a forced time-out call re-bases backwards and sends number 8 twice |
| `RawStreamArrays.Compact` | lib/nmxp.c:921-935 | NULL slots go, the others keep their order, and the slots given up hold the stale last pointer |
| `RawStreamArrays.CleanAfter` | lib/nmxp.c:921-935 | Behind the slots in use compaction leaves only NULL if and only if that was so before and there was nothing to compact or the last slot was NULL |
| `RawStreamArrays.RemoveSlot` | lib/nmxp.c:927-930 | The slots above y move down by one, all others are untouched |
| `RawStreamArrays.RemoveNull` | lib/nmxp.c:925-931 | Removing one NULL slot keeps all pointers in order, and the slot given up keeps the last pointer |
| `RawStreamArrays.InsertionSortSorts` | lib/nmxp.c:729-749 | Sorting by the comparator yields the same elements, ordered by seq_no |
| `RawStreamArrays.Qsort` | lib/nmxp.c:952 | The first n slots are sorted by seq_no and a permutation of what they were; the others are untouched |
| `RawStreamArrays.DataMultiset` | lib/nmxp.c:952 | The same pointers carry the same packets |
| `RawStreamBuffer.Stream.constructor` | lib/nmxp.c:751-770 | An empty buffer of four slots a second of latency, nothing sent, no copies made |
| `RawStreamBuffer.Stream.Prime` | lib/nmxp.c:835-853 | The first packet sets last_seq_no_sent to its number less one, or to 0 when a time-out is set |
| `RawStreamBuffer.Stream.ForceHead` | lib/nmxp.c:865-907 | The head is sent or thrown away, its copy freed, and its slot taken by the new packet or NULL |
| `RawStreamBuffer.Stream.Admit` | lib/nmxp.c:859-919 | The forced branch and the append do what the state machine says, and the waiting pointers stay exactly the live copies |
| `RawStreamBuffer.Stream.Squeeze` | lib/nmxp.c:921-935 | Compaction keeps all waiting copies and leaves no NULL among them; whether it leaves a stale pointer behind them is decided by the last slot |
| `RawStreamBuffer.Stream.Sort` | lib/nmxp.c:952 | The waiting copies are permuted into seq_no order |
| `RawStreamBuffer.Stream.Rebase` | lib/nmxp.c:972-988 | On a time-out last_seq_no_sent becomes the head's number less one |
| `RawStreamBuffer.Stream.Emit` | lib/nmxp.c:990-1037 | The loop computes the drain of the buffer and handles exactly j packets; differences of numbers fit 32 bits |
| `RawStreamBuffer.Stream.ShiftAndFree` | lib/nmxp.c:1039-1061 | The overlapping shift leaves exactly old[j..n) in front, NULL in the slots given up, and frees exactly the j handled copies, each once |
| `RawStreamBuffer.Stream.ShiftSlot` | lib/nmxp.c:1042-1058 | One turn of the shift: slot k is freed if handled and filled from slot k + j, and none waiting is lost |
| `RawStreamBuffer.Stream.FreeNext` | lib/nmxp.c:1042-1052 | A copy is freed only while it is live |
| `RawStreamBuffer.Stream.TakeIn` | lib/nmxp.c:834-952 | The first half of a call is the intake of the state machine, up to qsort's choice |
| `RawStreamBuffer.Stream.PutOut` | lib/nmxp.c:972-1061 | The second half of a call is its output |
| `RawStreamBuffer.Stream.MakeCopy` | lib/nmxp.c:808-832 | The given packet is copied afresh; a time-out makes no copy |
| `RawStreamBuffer.Stream.Manage` | lib/nmxp.c:794-1068 | The call is one step of the state machine, extends the run by it, and keeps exactly the live copies in the array, in bounds; when the slots not in use were NULL they still are, if and only if it was not a time-out call forced while two or more packets waited |
| `RawStreamBuffer.Stream.FreeAll` | lib/nmxp.c:777-786 | Every copy that waits is freed once |
| `RawStreamBuffer.Stream.Free` | lib/nmxp.c:773-791 | After any run, every copy ever made has been freed, and none twice |
| `RawStreamBuffer.AlwaysNumbered` | lib/nmxp.c:990-995 | When the emit loop starts, "never sent" can only precede packet 0, so that no difference of numbers leaves 32 bits |
| `Bundles.SumsConcat` | lib/nmxp_data.c:160-169 | Running sums of a concatenation are those of the first part, then those of the second from where the first ends |
| `Bundles.SampleIsPrefixSum` | lib/nmxp_data.c:160-169 | Sample k is x0 plus the sum of the first k differences, modulo 2^32 |
| `Bundles.ExactJustInRange` | lib/nmxp_data.c:160-169 | Sample k is exactly that sum if and only if the sum fits 32 bits |
| `Bundles.ReadGroup` | lib/nmxp_data.c:125-157 | The switch yields the group's signed 8-, 16- or 32-bit differences, at most four |
| `Bundles.Accumulate` | lib/nmxp_data.c:160-169 | The inner loop appends the running sums behind what the buffer holds and leaves prev at the last one |
| `Bundles.UnpackGroups` | lib/nmxp_data.c:121-171 | The four groups append the running sums of all their differences, at most sixteen |
| `Bundles.UnpackBundle` | lib/nmxp_data.c:101-172 | A null bundle returns -1 and changes nothing; any other appends the running sums of its differences and returns their number |
| `Bundles.BundleMeans` | lib/nmxp_data.c:112-158 | For every header the differences are those of the four groups in order, wherever unused ones stand, each signed and with its lowest byte first |
| `Bundles.GroupDiffsMean` | lib/nmxp_data.c:125-157 | What four bytes mean under the two compression bits of their group |
| `CompressedData.UnpackData` | lib/nmxp_base.c:703-733 | The bundle loop ends as the data says, with x0 and the running sums of all differences before the first null bundle, within the output buffer |
| `CompressedData.UnpackBundles` | lib/nmxp_base.c:707-727 | The same for the loop alone, in place in a given buffer |
| `CompressedData.UnpackNext` | lib/nmxp_base.c:717-724 | One turn of the loop extends the unpacked samples by those of one bundle, or finds the null bundle |
| `CompressedData.LiveConcat` | lib/nmxp_base.c:707-727 | Differences of data A then B are those of A then those of B, when A holds whole bundles and no null one |
| `CompressedData.PacketsStitch` | lib/nmxp_base.c:752-758 | Decoding A then B from x0 is decoding A from x0 and B from A's xn: xn is the x0 of the packet that follows |
| `CompressedData.AtMostSixteen` | lib/nmxp_data.c:121-171 | The groups from g on hold at most 4 (4 - g) differences |
| `CompressedData.BufferSuffices` | lib/nmxp_base.c:713-716 | With 16 free slots a bundle the output buffer is never found too small |
| `CompressedData.SamplesNeedRoom` | lib/nmxp_base.c:707-727 | For any data: sixteen free slots behind all samples are room enough, and when the samples themselves do not fit the end is never reached |
| `CompressedData.EndingConcat` | lib/nmxp_base.c:707-726 | Behind whole bundles the loop goes on with what follows, if there is room to get there |
| `CompressedData.NullBundleEnds` | lib/nmxp_base.c:718-723 | A null bundle ends the data, whatever follows it |
| `CompressedData.CutBundleFails` | lib/nmxp_base.c:708-712 | Data that end within a bundle are refused |
| `BundlePacking.GroupRoundTrip` | lib/nmxp_data.c:125-157 | A group of any width is read back |
| `BundlePacking.BundleRoundTrip` | lib/nmxp_data.c:101-172 | At most four groups, unused ones last, are read back from a bundle |
| `BundlePacking.NeverNull` | lib/nmxp_data.c:113 | Such a bundle never has the null header byte |
| `BundlePacking.UnusedGroupsMustBeLast` | lib/nmxp_data.c:113 | A header byte is the null one if and only if it says two unused groups, then a 16-bit and an 8-bit one: no other order of groups can be mistaken for it |
| `BundlePacking.PackingRoundTrip` | lib/nmxp_base.c:707-727 | Any spreading of differences over widths, groups and bundles decodes to the same differences |
| `BundlePacking.PackRoundTrip` | lib/nmxp_base.c:707-727 | Any list of 32-bit differences can be packed and is decoded to itself |
| `BundlePacking.WaveformRoundTrip` | lib/nmxp_base.c:703-758 | Any 32-bit waveform survives: the packet yields all samples but the last, and the last is its xn |
| `BundlePacking.PackedEnding` | lib/nmxp_base.c:707-727 | Packed bundles are decoded to the end if and only if sixteen slots are free when the last one comes; else the decoder gives up for lack of room |
| `BundlePacking.RoomForSamples` | lib/nmxp_base.c:713-716 | Up to 4080 differences always fit, more than 4095 never do |
| `CompressedPacket.ProcessCompressedData` | lib/nmxp_base.c:571-769 | Filler, unknown key, cut bundle, lack of room and decoding, each exactly when the bytes say so, with every field of the packet; for a message of any length, also one that ends within its header |
| `CompressedPacket.HeaderRoundTrip` | lib/nmxp_base.c:623-664 | All header fields are read back, the three-byte signed x0 among them |
| `CompressedPacket.HeaderMeans` | lib/nmxp_base.c:623-659 | Where each field of the header is, and that it is signed and has its lowest byte first |
| `CompressedPacket.TimeRoundTrip` | lib/nmxp_base.c:661 | Every time that is a whole number of ten-thousandths of a second, told by seconds and ticks, comes back |
| `CompressedPacket.TimeOrder` | lib/nmxp_base.c:661 | Times are in the order of seconds, and then of ticks |
| `CompressedPacket.RateRoundTrip` | lib/nmxp_base.c:588-592 | A packet has a rate if and only if its five high bits are the code of that rate, for each of the sixteen rates |
| `CompressedPacket.ShortMessage` | lib/nmxp_base.c:698-727 | A message cut off within its header or right behind it is a packet without samples whose xn is its x0 |
| `CompressedPacket.KeyParts` | lib/nmxp_base.c:678 | The key says "time series", and gives instrument (signed) and channel back |
| `CompressedPacket.PacketRoundTrip` | lib/nmxp_base.c:571-769 | For every header and waveform, what comes back from the wire is header and waveform if and only if the packet is no filler, its channel is subscribed and the samples fit the output buffer, as up to 4080 always do |
| `DataReceiver.FromWireToPacket` | lib/nmxp.c:225-243 | Header and waveform sent in a message come back as a packet if and only if the message fits the receive buffer of 16368 bytes, the packet is no filler, its channel is subscribed and the samples fit the output buffer |
| `DataReceiver.ReceiveData` | lib/nmxp.c:225-243 | The packet that the stream brings, or none, and none exactly when the call has an error number, no message or no compressed packet |
| `CompressedPacket.DecodedThenTrimmed` | lib/nmxp_data.c:279-290 | A decoded packet that is then trimmed carries a stretch of the waveform on the wire: x0 is its first sample, xn the one after its last |
| `Crc32.ShiftXor` | lib/nmxp_crc32.c:17 | The shift step is linear over xor |
| `Crc32.ShiftsXor` | lib/nmxp_crc32.c:16-22 | So are n shifts |
| `Crc32.FeedIsShift` | lib/nmxp_crc32.c:34 | Feeding n bits one by one equals xor-ing them in and shifting n times |
| `Crc32.TableStep` | lib/nmxp_crc32.c:34 | Eight shifts are the table entry of the low byte xor the register moved down |
| `Crc32.FeedByteIsTableStep` | lib/nmxp_crc32.c:34 | One byte bit by bit equals one table step |
| `Crc32.SumEntry` | lib/nmxp_crc32.c:19-21 | The entry of i + j is the xor of the entries of i and j, j a multiple of 2i |
| `Crc32.NextPower` | lib/nmxp_crc32.c:17-18 | One more shift turns the entry of 2i into that of i |
| `Crc32.PutSum` | lib/nmxp_crc32.c:19-21 | One inner step makes the multiples of i up to the next multiple of 2i right and breaks none |
| `Crc32.FillRound` | lib/nmxp_crc32.c:19-21 | One round makes every multiple of i right, from the multiples of 2i |
| `Crc32.InitTable` | lib/nmxp_crc32.c:12-23 | The doubling rounds make every one of the 256 entries what eight single-bit shifts make of its index |
| `Crc32.Crc32` | lib/nmxp_crc32.c:25-38 | The table-driven CRC equals the bit-at-a-time one, for every message and start value |
| `Crc32.FeedAll` | lib/nmxp_crc32.c:33-35 | The loop over the message feeds it byte by byte |
| `Crc32.FeedWord` | lib/nmxp_crc32.c:33-35 | Four bytes, the lowest first, are the word xor-ed in and 32 shifts |
| `Crc32.Residue` | include/nmxp_crc32.h:14 | A message followed by its own CRC, the lowest byte first, has the CRC 0x2144df1c, for every message and start value: the polynomial is that of CRC-32 |
| `Crc32.CheckValue` | include/nmxp_crc32.h:14 | The CRC of "123456789" is 0xcbf43926 |
| `Crc32.CrcConcat` | lib/nmxp_crc32.c:25-38 | A CRC can be continued: crc(crc(v, a), b) is crc(v, a + b) |
| `Crc32.ChangedByteIsDetected` | lib/nmxp_crc32.c:25-38 | Two messages that differ in one byte have different CRCs |
| `Trim.KeptJustInWindow` | lib/nmxp_data.c:243-264 | A sample of the packet stays if and only if it lies strictly between half a period before the start and half a period before the end of the window, shifted by the samples that the bitmap excludes |
| `Trim.TrimSelects` | lib/nmxp_data.c:273-312 | For every bitmap, a trim that does not fail leaves exactly the samples in the window, in order; one that does not return 1 changes nothing |
| `Trim.TimesAreKept` | lib/nmxp_data.c:287-291 | Every sample that stays keeps its value and its absolute time, for every bitmap |
| `Trim.EdgesAreMet` | lib/nmxp_data.c:245-258 | For every bitmap, each end that is cut ends up within half a sample period of its window edge, with the excluded sample counted in |
| `Trim.FailsJustHalfWay` | lib/nmxp_data.c:305-308 | When the window is in order and nothing is excluded, return 0 occurs if and only if the window is a single instant within the packet, exactly half-way between samples |
| `Trim.RemovedJustOutside` | lib/nmxp_data.c:245-264 | The two numbers of samples to remove count exactly the places on the wrong side of the start and of the end of the window, in times |
| `Trim.FailsJustOverlapping` | lib/nmxp_data.c:245-308 | For every window and bitmap, return 0 occurs if and only if some place is on the wrong side of both ends of the window, in times |
| `Trim.TrimIsIdempotent` | lib/nmxp_data.c:243-312 | For every window, bitmap and outcome, a second trim with the same window changes nothing; it returns 2 except, exactly, when the first failed or left no sample at an edge where one more is to be excluded |
| `Trim.TrimKeepsWaveform` | lib/nmxp_data.c:279-290 | x0 stays the first sample and xn the sample after the last |
| `Trim.WhatTrimChanges` | lib/nmxp_data.c:290-304 | A packet that loses all samples has x0 and xn -1 and keeps its time; nothing but samples, time, x0 and xn ever changes |
| `Trim.ExcludedSamples` | lib/nmxp_data.c:247-257 | Bit 1 of the bitmap excludes the sample at the start of the window, bit 2 the one at its end |
| `Trim.Process.ShiftSamples` | lib/nmxp_data.c:287-289 | The overlapping copy moves every sample down unharmed |
| `Trim.Process.Count` | lib/nmxp_data.c:243-264 | The two numbers of samples to remove, rounded half up |
| `Trim.Process.Remove` | lib/nmxp_data.c:273-312 | Samples, count, time, x0 and xn become those of the cut packet |
| `Trim.Process.TrimTo` | lib/nmxp_data.c:232-326 | The packet in place becomes the trimmed packet, with its return code |
| `Framing.NetworkRoundTrip` | lib/nmxp_base.c:362-364 | A 32-bit integer in network order is read back |
| `Framing.HighestFirst` | lib/nmxp_base.c:362-364 | The highest byte of a number comes first on the wire |
| `Framing.SignatureBytes` | lib/nmxp_base.c:362 | Every message starts with the bytes 7a bc de 0f, then its type, its length and its body |
| `Framing.ReadAnyHeader` | lib/nmxp_base.c:380-452 | What is made of any header: type 0, a bad signature, a length that is negative, too long for the buffer, or longer than the stream |
| `Framing.MessageRoundTrip` | lib/nmxp_base.c:427-468 | A message comes back and the stream is left behind it, if and only if it has no body, or a non-zero type and a body that fits |
| `Framing.LongMessage` | lib/nmxp_base.c:435-438 | A body that does not fit the buffer is refused |
| `Framing.ReadTakesExtent` | lib/nmxp_base.c:427-452 | The first message of a stream takes the bytes that its header says, 12 and the body, and nothing is delivered of less |
| `Receiving.RecvCtrl` | lib/nmxp_base.c:279-355 | Success reads exactly length bytes in order, however segmented; failure reads fewer and gives EWOULDBLOCK when a byte is awaited longer than the time-out, which is 30 seconds for 0, -100 just at the end of the stream, or the error number of the socket |
| `Receiving.Socket.SetTimeout` | lib/nmxp_base.c:193-236 | A time-out of 0 is one of 30 seconds |
| `Receiving.ReceiveHeader` | lib/nmxp_base.c:370-398 | Type and length of a well-signed header, zeros for type 0, an error for a wrong signature; the error number is 0 just when the whole header was read |
| `Receiving.ReceiveMessage` | lib/nmxp_base.c:427-468 | The call is one attempt as the line determines it: the message that the stream starts with, a bad header, a time-out in header or body that takes what has come of the message off the line, or the end; without errors of the socket nothing else happens |
| `Receiving.ReceiveLoop` | src/nmxptool.c:906-979 | The loop, which goes on after time-outs and bad headers, receives exactly what the line determines up to the end of the connection, or an initial part of it up to an error of the socket |
| `Receiving.ReceiveConnection` | src/nmxptool.c:906-979 | The messages of a connection are all received, in order, if and only if within no message a byte is awaited too long |
| `Receiving.ReceiveSome` | src/nmxptool.c:906-979 | On any connection, while no byte within a message is awaited too long, what is received is what was sent, as far as it goes |
| `Receiving.ReceiveAll` | lib/nmxp_base.c:427-468 | Messages of which no byte is awaited too long are received one by one under any segmentation, and the stream is left behind the last |
| `Pauses.PlaySize` | src/nmxptool.c:906-979 | Each message received has taken its own bytes off the line |
| `Pauses.PromptMessagesArrive` | src/nmxptool.c:906-979 | As long as within no message a byte is awaited too long, back-to-back messages are received and the line is left behind them |
| `Pauses.LostForGood` | src/nmxptool.c:906-979 | Whatever a byte awaited too long within a message leads to, the messages received are not those sent |
| `Pauses.AllArriveJustWhenPrompt` | src/nmxptool.c:906-979 | All messages are received if and only if, within each, no byte of the header but the first is awaited longer than the time-out, and no byte of the body longer than 30 seconds |
| `Pauses.PhantomMessage` | lib/nmxp_base.c:380-395 | When the first four bytes of a header without a body are lost, a message of type 0 is read that nobody sent |
| `Pauses.PhantomIsReceived` | lib/nmxp_base.c:380-395 | A connection on which byte 4 of a header is awaited too long and a message is received that nobody sent, for every time-out |
| `Pauses.BodyIsReceived` | lib/nmxp_base.c:439-440 | Connections on which a body is awaited longer than 30 seconds and is then received as the message that it spells, for every time-out |
| `Pauses.WaitedForNothing` | lib/nmxp_base.c:291-319 | However long the first byte of a message is awaited, the attempts that time out change nothing |
| `Pauses.FirstLost` | lib/nmxp_base.c:323-351 | The first byte awaited too long ends the attempt, and the bytes before it are gone |
| `Pauses.RefusedIsSkipped` | src/nmxptool.c:956-957 | A message that is refused costs its header, and the loop goes on behind it |
| `Pauses.FirstReceived` | lib/nmxp_base.c:427-452 | A message that comes in time from its first byte on is received |
| `Pauses.PromptPlaces` | lib/nmxp_base.c:375 | What holds of the waits within messages, byte by byte, counted from the start of the line |
| `Framing.SendCtrl` | lib/nmxp_base.c:147-155 | The first k bytes are on the wire, and the call succeeds just when they are all; on a reliable wire it does |
| `Framing.SendMessage` | lib/nmxp_base.c:401-410 | The first k bytes of the encoded message are on the wire, and the call succeeds just when they are all; on a reliable wire it does |
| `SeedFiles.AfterIsProper` | lib/nmxp_data.c:857-920 | Whatever is asked and however fopen turns out, names and handles stay distinct, there are at most 200, and the only hole is the oldest slot of a full ring |
| `SeedFiles.RunIsProper` | lib/nmxp_data.c:847-951 | The same after every run of requests, failures and close-alls |
| `SeedFiles.HoleJustAfterFailure` | lib/nmxp_data.c:896-907 | A hole appears if and only if fopen fails on a full ring, and stays until another file is opened or all are closed |
| `SeedFiles.FailureLeavesHole` | lib/nmxp_data.c:892-916 | Two hundred files open and one that fails: the oldest is closed, its slot is a hole with the new name, and asking for that name again finds it and changes nothing |
| `SeedFiles.HoleIsReached` | lib/nmxp_data.c:892-916 | A run that reaches such a hole |
| `SeedFiles.NothingIsEvicted` | lib/nmxp_data.c:892-916 | While at most 200 different names are asked for between close-alls, every file that could be opened is still open, whatever else failed, and there is no hole |
| `SeedFiles.OpensFill` | lib/nmxp_data.c:892-916 | Of files opened one after another the last two hundred are open: first in, first out |
| `SeedFiles.OldestIsClosed` | lib/nmxp_data.c:868-896 | To be asked for again does not keep the oldest file open: it is closed for the next new one |
| `SeedFiles.NextSlot` | lib/nmxp_data.c:895 | The slot after last_open_file is the next free one, and in a full ring that of the oldest file |
| `SeedFiles.RingOpens` | lib/nmxp_data.c:895-915 | Closing that slot and opening the new file there turns the ring into that of the cache without its oldest and with the new file |
| `SeedFiles.RingLoses` | lib/nmxp_data.c:895-907 | A failed open there turns the ring into that of the cache with a hole in place of its oldest file |
| `SeedFiles.Files.constructor` | lib/nmxp_data.c:831-839 | An empty ring |
| `SeedFiles.Files.Find` | lib/nmxp_data.c:858-866 | A name is found if and only if a slot that counts as open has it, and the index is that of the slot |
| `SeedFiles.Files.Close` | lib/nmxp_data.c:928-940 | An open slot is emptied and its handle, which must be open, given back; any other index changes nothing |
| `SeedFiles.Files.Replace` | lib/nmxp_data.c:896-902 | The slot gets the new name and what fopen returns, its old handle is given back, and no other slot changes |
| `SeedFiles.Files.Open` | lib/nmxp_data.c:892-916 | Success and failure of fopen, in a ring full or not, with or without a hole, each lead to the ring of the cache after the event; the open handles are exactly those in it |
| `SeedFiles.Files.Request` | lib/nmxp_data.c:847-925 | In every state that a run can reach: the cache after the request, the error, and that without error the current slot has the name asked for and is an open file if and only if the name is not that of a hole |
| `SeedFiles.LiveSlots` | lib/nmxp_data.c:942-946 | The open handles are those in the slots, each in one |
| `SeedFiles.Files.CloseSlots` | lib/nmxp_data.c:944-946 | Every open handle is given back, and none twice |
| `SeedFiles.Files.CloseAll` | lib/nmxp_data.c:942-951 | From every state, with a hole or without, no handle stays open and the ring is empty |
| `ChannelNames.CopyStaChan` | lib/nmxp_chan.c:21-108 | The scan for dots and the cuts yield the parts between the dots, arranged by number and length |
| `ChannelNames.CodesRoundTrip` | lib/nmxp_chan.c:52-91 | NET.STA.CHAN.LOC, and STA.CHAN, put together from codes without dots, come apart into the same codes |
| `ChannelNames.ThreeCodes` | lib/nmxp_chan.c:64-85 | Three codes are station, channel and location, or network, station and channel, as their lengths say, and else none |
| `ChannelNames.CountsDots` | lib/nmxp_chan.c:36-52 | A name is refused if and only if it has no dot or more than three |
| `ChannelNames.SplitFirst` | lib/nmxp_chan.c:35-51 | What is before the first dot is the first part, the rest is split on |
| `ChannelNames.AllAllowed` | lib/nmxp_chan.c:135-187 | A code passes if and only if every character of it is allowed |
| `ChannelNames.Match` | lib/nmxp_chan.c:117-241 | 1, 0, -1 and -2, each exactly when pattern and name say so |
| `ChannelNames.MatchMeans` | lib/nmxp_chan.c:117-241 | For a name made of station and channel code and any pattern with codes: -1 if a code has a character that is not allowed or the channel code is not three long; else 1 if the stations are the same but for case, or the pattern's is "*", and each letter is the same or '?'; else 0 |
| `ChannelNames.MatchOfCodes` | lib/nmxp_chan.c:117-241 | The same for patterns put together from codes, with and without network and location |
| `ChannelNames.MatchWithoutDot` | lib/nmxp_chan.c:211-216 | A name without a dot gives -2, unless the pattern is bad |
| `ChannelNames.MatchWithoutCodes` | lib/nmxp_chan.c:128-133 | A pattern without a dot or with more than three gives -1 |
| `ChannelSubset.ItemsRoundTrip` | lib/nmxp_chan.c:340-351 | Comma-separated patterns are read back one by one, and nothing after an empty one is read |
| `ChannelSubset.SelectionIsBounded` | lib/nmxp_chan.c:359-398 | Keys in the selection are distinct and come from the list, so the selection never outgrows it |
| `ChannelSubset.ScanAdds` | lib/nmxp_chan.c:359-398 | One pattern adds exactly, for each key of the wanted type not selected yet, the first channel that hits, under its full name |
| `ChannelSubset.SelectedJustWhenMatched` | lib/nmxp_chan.c:322-407 | For any list, a key is selected if and only if it has the wanted type and, for some pattern, a channel with that key matches before any channel gives an error for the pattern |
| `ChannelSubset.FirstPatternWins` | lib/nmxp_chan.c:363-377 | For any list, the entry of a key is exactly that of the first pattern with such a channel, and of the first such channel |
| `ChannelSubset.EntriesAreNamed` | lib/nmxp_chan.c:363-377 | The name of every entry comes apart into the network of that pattern or else the default, station and channel of the channel, and the location of the pattern or else the default; longer names are cut to 23 characters |
| `ChannelSubset.FullNameInCodes` | lib/nmxp_chan.c:371-373 | The same for one channel and one pattern |
| `ChannelSubset.TypeOfKey` | lib/nmxp_chan.c:362 | The data type is the second byte of a key |
| `ChannelSubset.HitNameIsFirst` | lib/nmxp_chan.c:359-362 | The scan finds the first channel with the key that matches, if no channel before it gives an error |
| `ChannelSubset.WellFormedNamesAreReached` | lib/nmxp_chan.c:359-362 | On a list of well-formed names no channel keeps the scan from one that matches |
| `ChannelSubset.WellFormedSelection` | lib/nmxp_chan.c:322-407 | On a list of well-formed names with distinct keys a channel is selected if and only if it has the wanted type and some pattern matches it |
| `ChannelSubset.ListNet.LookupName` | lib/nmxp_chan.c:277-297 | NULL if the key is not on the list or its last entry has an empty name, else the name of that last entry |
| `ChannelSubset.OfferChannel` | lib/nmxp_chan.c:360-395 | One turn of the inner loop appends the channel just when it matches, is of the type and is new; the slot is in bounds |
| `ChannelSubset.ChanSubset` | lib/nmxp_chan.c:322-407 | The nested loops over patterns and channels fill the list with exactly the selection |

## Left out

- RawStreamBuffer.Stream.Manage: does not model `last_sample_time`, `last_latency` and the time tolerance, which are only logged, nor the client's functions, which are events here and are taken not to change the packet.
- RawStreamBuffer.Stream.Free: does not model freeing the slot array itself and setting it to NULL; afterwards the object is marked as released and no method may be called on it.
- RawStreamBuffer.Stream.constructor: takes the latency as positive, and does not model overflow of four times the latency.
- RawStreamArrays.Qsort: sorts a copy by insertion; the C library's algorithm is not part of this model, and callers know only what qsort promises.
- Sequence numbers are taken to be 0 to 2^31 - 1, since -1 stands for "never sent".
- RawStreamReorder.Reordering: speaks of runs without forced sends and time-outs; with them, DropsAreJustified, JumpsAreJustified and OutputOrder say what is left of the order.
- Bundles.UnpackBundle: models int32 overflow as two's complement wrap-around, which C leaves undefined; ExactJustInRange gives the exact condition under which it does not occur. The machine is little-endian.
- CompressedPacket.ProcessCompressedData: takes the subscribed channels as a set of keys, and leaves out the name codes copied into the packet and the constant flag `x0n_significant`; the receive buffer has at least the 21 bytes of a header, as its callers' has.
- Trim.FailsJustHalfWay: is for windows in order and bitmap 0; FailsJustOverlapping is for all.
- Trim.Process.TrimTo: times are reals, so floating-point rounding is not modelled, nor the NULL packet, which only returns 0, nor the range of int.
- Receiving.ReceiveMessage: takes `recv` to leave errno alone when it returns data, EWOULDBLOCK to come from time-outs only, and time-outs not to be negative; how long a byte is awaited is counted from when the one before it has been taken, so that the time the client spends elsewhere is in that number. The variant with `select()` for systems without SO_RCVTIMEO is not modelled.
- DataReceiver.ReceiveData: leaves out messages with decompressed packets, for which it gives none.
- Receiving.ReceiveLoop: models the receiving in the client's loop, and its end by an error or the end of the stream; signals, the limit on the time without data, and errors of files also end it.
- SeedFiles.Files.Request: takes the file name and the outcome of the directory check as inputs; names are shorter than the 1024 bytes of a slot, the system hands out no handle that is still open, and the count `err_general` is not modelled.
- ChannelNames.Match: takes codes and names to be shorter than the fixed buffers that strncpy fills.
- ChannelSubset.ChanSubset: takes a pattern to fit its 100 bytes, and at most 2000 channels.
- `nmxp_data_msr_pack` and the mini-SEED library behind it.
- Date parsing and printing, which rest on the calendar functions of the C library.
- `nmxp_processDecompressedData`, `nmxp_chan_getType`, lookups by name, sorting and printing of channel lists, byte swapping.
- Sockets, signals, threads, sleeping, logging, the debug memory tracker, options, Earthworm and SeedLink glue, and `main`.
