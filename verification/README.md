# A verified model of the RTCP and event-loop cores

This project models five components of the repository in Dafny and proves what they keep, over all inputs and whole runs.
`dafny verify dfyconfig.toml` checks it. Sources are cited by path and line. Nothing was executed.

Objects whose methods update fields are classes with those fields; each method is proved against a function of its inputs
and the old state, and the lemmas are about those functions.

**Compound RTCP packets** (`SdesFormat`, `SdesPacket`, `RtcpFormat`, `CompoundPacket`, `PacketLayout`, `PacketWriter`,
`RoundTrip`, `CompoundPacketBuilder`, `BuilderSessions`). The grammar of sections 6.4 to 6.7 of RFC 3550 is written down
once as scanning functions. The validating SDES constructor accepts exactly that grammar, and the unchecked `Goto*`
iteration stays inside it. The parser is proved equivalent, both ways, to "a concatenation of well-formed packets". The
builder's size predictions are the sizes after the addition, `EndBuild` writes exactly the length it computed, and over any
sequence of calls what it writes is parsed back into what the successful calls added. The builder's nested `Report`, `SDES`
and `SDESSource` objects are fields and values of the builder class.

**The delay queue** (`TimeArithmetic`, `DelayList`, `DelayQueue`, `DelayRuns`, `DelayedTasks`). A circular, doubly linked
list of deltas refines a plain list of deadlines. `DelayRuns` is the queue on values, with the deadline of the sentinel;
`DelayedTasks.PerformAll` proves that the heap queue follows it through any sequence of operations whose clock readings and
due times stay before that deadline, and then nothing fires early and everything fires in due order.

**Two hash tables** (`BasicHashTable`, `KeyHashTable`). Linked buckets on the heap against a map, over any run with its
rebuilds, and against an insertion-ordered map with a cursor.

**The source table** (`SourceStats`, `LossRuns`, `SourceState`, `SourceTable`, `SourceRuns`, `SourceReports`,
`CompoundEffects`, `PacketEffects`, `SourceTimeouts`, `InternalSourceData`, `Sources`, `SourceSessions`, `ReportBlocks`).
Probation and extended sequence numbers, the packet queue, address binding, the three counts, the five timeout passes,
compound packets, and the losses reported back. What a packet or a timeout makes of each source is stated from the contents
of the packet and the times in microseconds, and losses from the packets alone. The table is a sequence of entry objects in
insertion order, which is what the keyed hash table is proved to be; a cursor move is an index.

**The schedulers** (`RtcpScheduler`, `HandlerSet`, `TaskScheduler`). The RTCP timer with reconsideration, its interval as
a number and how long a packet waits at most, and the round-robin choice among socket handlers over a linked ring.

## Where the code falls short of the obvious claim

The model does what the code does; each gap has its exact condition.

- The first `AddSDESSource` is checked as if it cost nothing (jrtplib-3.8.2/src/rtcpcompoundpacketbuilder.h:349-350). It
  stays within the maximum exactly when 12 octets were free. Once over it, `Start*Report` subtracts in `size_t`, wraps, and
  accepts.
- A packet longer than 2^18 octets does not fit its 16-bit length field: the build succeeds, and the parser gives the packets
  back exactly when each 31 chunks fit. They always do up to 2^18 octets in all.
- Cumulative losses travel as 24 bits: they survive exactly when in the signed 24-bit range.
- `addEntry` with a delay of at least the sum of the list (live/BasicUsageEnvironment/DelayQueue.cpp:127-130) passes the
  sentinel and goes round: the entry is due after its delay exactly when the delay is below that sum, that is, when the due
  time is before the sentinel's, and earlier otherwise (`ScheduleDelayedTask`, `ScheduledKeepsIff`). On a new queue a task
  for 2^31 seconds, say, runs before they have passed (`LongDelayFiresEarly`).
- `synchronize` ends if and only if the time it measures is below that sum (the same file, lines 206-215); the queue
  operations ask for that. From 2^31 seconds on the casts in the subtraction measure no time at all, so the loop ends and
  all timers keep their distance, as when the clock goes back.
- An RTP packet whose contributing source is already known but not validated makes it active without counting it
  (jrtplib-3.8.2/src/rtpsources.cpp:348-352). The active count is short by exactly those sources since the last timeout pass,
  so it is exact if and only if there were none.
- A late packet from before a sequence wrap is taken as new (jrtplib-3.8.2/src/rtpsourcedata.cpp:153-157); numbers are right
  exactly inside the window stated in `InWindow`.
- An SDES item of unknown number stops the processing of the rest of its compound packet
  (jrtplib-3.8.2/src/rtpsources.cpp:718-719).
- The cumulative number of lost packets is right if and only if it fits a signed 32-bit word.
- A fraction lost for an interval without packets divides zero by zero; it is defined exactly otherwise.
- `moveHandler` can give two handlers one socket; exactly when there is one to move and another has the new socket.
- Settings with a zero bandwidth share make an interval divide by zero, exactly when that share is the one in use.
- `Clear()` and the constructor of the keyed hash table leave the cursor as it was; moves ask for a sound cursor.
- A timeout longer than the clock has run wraps round: it takes whatever is not within that timeout of the wrap at 2^32
  seconds (`Overdue`).


## Model

| member | source | states |
|---|---|---|
| SdesFormat.ScanWrittenChunks | jrtplib-3.8.2/src/rtcpsdespacket.cpp:62-141 | Chunks as the builder writes them are read back one for one, and reading stops right behind the last |
| SdesFormat.ScanWrittenItems | jrtplib-3.8.2/src/rtcpsdespacket.cpp:89-128 | A written item list is read back item for item and stops at the zero octet |
| SdesFormat.PrivRoundTrip | jrtplib-3.8.2/src/rtcpsdespacket.h:300-360 | Prefix and value of a written PRIV item are read back |
| SdesFormat.PrivOctets | jrtplib-3.8.2/src/rtcpsdespacket.h:301-360 | The accessors point at just the octets of the prefix and of the value |
| SdesFormat.PaddedChunks | jrtplib-3.8.2/src/rtcpsdespacket.cpp:52-60 | A padded description is of known format exactly when it is so without its padding, and has the same chunks |
| SdesPacket.RTCPSDESPacket.constructor | jrtplib-3.8.2/src/rtcpsdespacket.cpp:41-142 | The packet is of known format exactly when its unpadded part is the counted number of well-formed chunks and nothing else |
| SdesPacket.RTCPSDESPacket.CheckChunks | jrtplib-3.8.2/src/rtcpsdespacket.cpp:69-138 | The loop over the chunks accepts exactly what the grammar of the format accepts |
| SdesPacket.RTCPSDESPacket.CheckChunk | jrtplib-3.8.2/src/rtcpsdespacket.cpp:81-131 | The loop over one chunk ends where the grammar says that the chunk ends, or rejects it |
| SdesPacket.RTCPSDESPacket.GotoFirstChunk | jrtplib-3.8.2/src/rtcpsdespacket.h:159-170 | Puts the iteration before all chunks of an accepted packet; false when there is none |
| SdesPacket.RTCPSDESPacket.SkipChunk | jrtplib-3.8.2/src/rtcpsdespacket.h:181-195 | The unchecked skip stays inside the packet and lands where the validator said that the chunk ends |
| SdesPacket.RTCPSDESPacket.GotoNextChunk | jrtplib-3.8.2/src/rtcpsdespacket.h:172-197 | Goes on to the next of the validated chunks, the first item in front; false exactly after the last |
| SdesPacket.RTCPSDESPacket.GetChunkSSRC | jrtplib-3.8.2/src/rtcpsdespacket.h:199-207 | The SSRC of the current validated chunk |
| SdesPacket.RTCPSDESPacket.GotoFirstItem | jrtplib-3.8.2/src/rtcpsdespacket.h:209-220 | Back to the first item of the chunk; false when it has none |
| SdesPacket.RTCPSDESPacket.GotoNextItem | jrtplib-3.8.2/src/rtcpsdespacket.h:222-241 | One item further among those validated; false exactly at the last |
| SdesPacket.RTCPSDESPacket.GetItem | jrtplib-3.8.2/src/rtcpsdespacket.h:243-298 | Type, length and octets of the current validated item |
| SdesPacket.RTCPSDESPacket.GetPRIV | jrtplib-3.8.2/src/rtcpsdespacket.h:300-372 | Prefix and value of a PRIV item, or nothing when its prefix length does not fit |
| SdesPacket.RTCPSDESPacket.ReadItems | jrtplib-3.8.2/src/rtcpsdespacket.h:209-241 | Iterating over the items of a chunk gives all of them, in order, and terminates |
| SdesPacket.RTCPSDESPacket.ReadChunks | jrtplib-3.8.2/src/rtcpsdespacket.h:159-241 | On arbitrary octets: iteration terminates and visits exactly the counted chunks with exactly their items, or none |
| RtcpFormat.ReadWrittenLoss | jrtplib-3.8.2/src/rtcpsrpacket.h:202-212 | The loss count comes back as its low 24 bits, sign-extended |
| RtcpFormat.LossOctets | jrtplib-3.8.2/src/rtcpcompoundpacketbuilder.cpp:241-248 | The three octets that the shifts take from the 32-bit count are those of the count modulo 2^24 |
| RtcpFormat.ReadWrittenBlock | jrtplib-3.8.2/src/rtcpcompoundpacketbuilder.cpp:218-256 | A report block written and read back, but for the 24-bit loss |
| RtcpFormat.DecodeSR | jrtplib-3.8.2/src/rtcpsrpacket.h:130-245 | Sender information and blocks of a written sender report are what its accessors give |
| RtcpFormat.DecodeRR | jrtplib-3.8.2/src/rtcprrpacket.h:118-200 | The same for a receiver report |
| RtcpFormat.DecodeSDES | jrtplib-3.8.2/src/rtcpsdespacket.cpp:41-142 | A written SDES packet is of known format and gives its chunks |
| RtcpFormat.DecodeBYE | jrtplib-3.8.2/src/rtcpbyepacket.cpp:41-73 | Sources and reason of a written BYE packet are what its accessors give |
| RtcpFormat.DecodeAPP | jrtplib-3.8.2/src/rtcpapppacket.cpp:41-66 | The same for an APP packet |
| RtcpFormat.PaddedSays | jrtplib-3.8.2/src/rtcpbyepacket.cpp:51-59 | A packet of any kind, padded with a multiple of four octets, is of known format exactly when it is so without them, and its accessors give the same |
| RtcpFormat.BadPadding | jrtplib-3.8.2/src/rtcpbyepacket.cpp:53-56 | Padding that is no multiple of four octets or takes the whole packet makes the format unknown |
| CompoundPacket.ParsedIsSplit | jrtplib-3.8.2/src/rtcpcompoundpacket.cpp:102-195 | Whatever the parser accepts is a concatenation of packets obeying the rules of section 6.1 of RFC 3550 |
| CompoundPacket.SplitIsParsed | jrtplib-3.8.2/src/rtcpcompoundpacket.cpp:102-195 | Every such concatenation is accepted and cut at just those places |
| CompoundPacket.RTCPCompoundPacket.constructor | jrtplib-3.8.2/src/rtcpcompoundpacket.cpp:78-92 | Error flag, buffer and packet list are as the grammar of compound packets has it |
| CompoundPacket.RTCPCompoundPacket.ParseData | jrtplib-3.8.2/src/rtcpcompoundpacket.cpp:102-195 | The loop accepts exactly the octets the grammar accepts and leaves its packets, or an empty list |
| CompoundPacket.RTCPCompoundPacket.CheckHeader | jrtplib-3.8.2/src/rtcpcompoundpacket.cpp:116-152 | The checks on one header: version, first packet type, length within the rest, padding only in the last |
| PacketLayout.ReportPrediction | jrtplib-3.8.2/src/rtcpcompoundpacketbuilder.h:171-208 | The predicted report size with one more block is the size after adding it |
| PacketLayout.ItemPrediction | jrtplib-3.8.2/src/rtcpcompoundpacketbuilder.h:244-253 | The predicted SDES size with one more item is the size after adding it |
| PacketLayout.SourcePrediction | jrtplib-3.8.2/src/rtcpcompoundpacketbuilder.h:343-365 | The predicted SDES size with one more source is the size after adding it, except that the first counts 0 |
| PacketLayout.ReportPacketsSize | jrtplib-3.8.2/src/rtcpcompoundpacketbuilder.h:171-193 | The report size formula is the size of the groups of 31 that get written |
| PacketLayout.SdesSize | jrtplib-3.8.2/src/rtcpcompoundpacketbuilder.h:302-320 | The SDES size formula is the size of the groups of 31 padded chunks that get written |
| CompoundPacketBuilder.RTCPCompoundPacketBuilder.InitBuild | jrtplib-3.8.2/src/rtcpcompoundpacketbuilder.cpp:105-126 | Starts a build, or fails for the reason that applies first; nothing changes on failure |
| CompoundPacketBuilder.RTCPCompoundPacketBuilder.StartSenderReport | jrtplib-3.8.2/src/rtcpcompoundpacketbuilder.cpp:151-187 | Adds the sender report if the size_t difference leaves 28 octets; with its wrap, always once the maximum is exceeded, and then by at most 40 |
| CompoundPacketBuilder.RTCPCompoundPacketBuilder.StartReceiverReport | jrtplib-3.8.2/src/rtcpcompoundpacketbuilder.cpp:189-216 | The same for 8 octets of receiver report |
| CompoundPacketBuilder.RTCPCompoundPacketBuilder.AddReportBlock | jrtplib-3.8.2/src/rtcpcompoundpacketbuilder.cpp:218-256 | Accepted exactly when the whole packet with it fits; then appended |
| CompoundPacketBuilder.RTCPCompoundPacketBuilder.AddSDESSource | jrtplib-3.8.2/src/rtcpcompoundpacketbuilder.cpp:258-278 | Accepted by the prediction; stays within the maximum exactly when it is not the first source or 12 octets were free, and otherwise exceeds it by at most 12 |
| CompoundPacketBuilder.RTCPCompoundPacketBuilder.PushSource | jrtplib-3.8.2/src/rtcpcompoundpacketbuilder.cpp:271-276 | The source without items behind the others |
| CompoundPacketBuilder.RTCPCompoundPacketBuilder.AddSDESNormalItem | jrtplib-3.8.2/src/rtcpcompoundpacketbuilder.cpp:280-344 | Errors in the order of the source; accepted exactly when the packet with the item fits, then appended to the last source |
| CompoundPacketBuilder.RTCPCompoundPacketBuilder.AddSDESPrivateItem | jrtplib-3.8.2/src/rtcpcompoundpacketbuilder.cpp:346-390 | The same for a prefixed item, and for its total length |
| CompoundPacketBuilder.RTCPCompoundPacketBuilder.AddBYEPacket | jrtplib-3.8.2/src/rtcpcompoundpacketbuilder.cpp:392-462 | Errors and acceptance; the appended octets are a framed BYE with padded reason |
| CompoundPacketBuilder.RTCPCompoundPacketBuilder.FrameBYE | jrtplib-3.8.2/src/rtcpcompoundpacketbuilder.cpp:400-456 | The hand-written frame, reason length and zero octets are the BYE of section 6.6 of RFC 3550 |
| CompoundPacketBuilder.RTCPCompoundPacketBuilder.AddAPPPacket | jrtplib-3.8.2/src/rtcpcompoundpacketbuilder.cpp:464-518 | Errors and acceptance; the appended octets are a framed APP |
| CompoundPacketBuilder.RTCPCompoundPacketBuilder.UsedIsWireSize | jrtplib-3.8.2/src/rtcpcompoundpacketbuilder.cpp:575-578 | The length that EndBuild computes is the number of octets it is about to write |
| CompoundPacketBuilder.RTCPCompoundPacketBuilder.EndBuild | jrtplib-3.8.2/src/rtcpcompoundpacketbuilder.cpp:564-807 | The buffer is the concatenation of the packets of everything added, exactly the computed length, within the maximum unless the first source exceeded it, and then by at most 40; the packet list is theirs; the builder is empty |
| CompoundPacketBuilder.RTCPCompoundPacketBuilder.ClearBuildBuffers | jrtplib-3.8.2/src/rtcpcompoundpacketbuilder.cpp:69-103 | Forgets everything added and nothing else |
| PacketWriter.WriteReports | jrtplib-3.8.2/src/rtcpcompoundpacketbuilder.cpp:594-653 | The report loop adds groups of at most 31 blocks at the cursor, only the first an SR, and moves it behind them |
| PacketWriter.WriteReportPacket | jrtplib-3.8.2/src/rtcpcompoundpacketbuilder.cpp:600-649 | One pass: header, head and blocks at the cursor, the cursor behind them |
| PacketWriter.WriteSdes | jrtplib-3.8.2/src/rtcpcompoundpacketbuilder.cpp:655-727 | The SDES loop writes groups of at most 31 padded chunks |
| PacketWriter.WriteSource | jrtplib-3.8.2/src/rtcpcompoundpacketbuilder.cpp:675-705 | One chunk: SSRC, items, terminating zero and alignment |
| PacketWriter.WriteBuffers | jrtplib-3.8.2/src/rtcpcompoundpacketbuilder.cpp:729-750 | APP and BYE packets are copied one behind the other |
| PacketWriter.WriteCompound | jrtplib-3.8.2/src/rtcpcompoundpacketbuilder.cpp:589-800 | Together the loops fill the buffer exactly |
| RoundTrip.WireSays | jrtplib-3.8.2/src/rtcpcompoundpacketbuilder.cpp:564-807 | Each packet written is of known format and decodes to its share of what was added |
| RoundTrip.ParsesIffFits | jrtplib-3.8.2/src/rtcpcompoundpacket.cpp:102-195 | The buffer is parsed into just the packets written exactly when each 31 chunks, as they were added, fit a 16-bit length field |
| RoundTrip.FitsIffChunksFit | jrtplib-3.8.2/src/rtcpcompoundpacketbuilder.cpp:630-720 | Only groups of chunks can be too long for their length field: all packets fit exactly when each 31 chunks do, by the sizes of their items |
| RoundTrip.SmallPacketsFit | jrtplib-3.8.2/src/rtcpcompoundpacketbuilder.cpp:630-633 | Up to 2^18 octets in all, each 31 chunks fit |
| RoundTrip.ReassembleExpected | jrtplib-3.8.2/src/rtcpcompoundpacketbuilder.cpp:594-800 | Joining the decoded groups gives back what was added |
| RoundTrip.BuildParseRoundTrip | jrtplib-3.8.2/src/rtcpcompoundpacket.cpp:102-195 | For any content whose chunks fit by 31: parsing succeeds, formats are known, groups have at most 31, and the same sender information, blocks, chunks, APP and BYE packets come back in order, losses modulo 2^24 |
| RoundTrip.LossesUnchanged | jrtplib-3.8.2/src/rtcpcompoundpacketbuilder.cpp:241-248 | All losses survive exactly when each is a signed 24-bit number |
| CompoundPacketBuilder.SentIsReceived | jrtplib-3.8.2/src/rtcpcompoundpacket.cpp:102-195 | The list parsed from the buffer is the list the builder kept, exactly when each 31 chunks fit, as they do up to 2^18 octets |
| BuilderSessions.BuildAndParse | jrtplib-3.8.2/src/rtcpcompoundpacketbuilder.cpp:105-807 | For any sequence of builder calls and any maximum up to 2^18 less 40: the buffer is parsed without error into the very packets the builder kept, of known format, in groups of at most 31, and they give back exactly what the successful calls added, losses modulo 2^24; it fails exactly when no report was started |
| BuilderSessions.Perform | jrtplib-3.8.2/src/rtcpcompoundpacketbuilder.cpp:151-518 | Each call adds to the content what it says when it succeeds, and nothing otherwise |
| BuilderSessions.PerformAll | jrtplib-3.8.2/src/rtcpcompoundpacketbuilder.cpp:151-518 | Over any sequence of calls the builder holds exactly what the successful ones added |
| BuilderSessions.Finish | jrtplib-3.8.2/src/rtcpcompoundpacket.cpp:78-195 | EndBuild and then the parser on its buffer: no error, the same packets, the whole content |
| BuilderSessions.AddBlocks | jrtplib-3.8.2/src/rtcppacketbuilder.cpp:408-424 | Of any blocks offered one by one, exactly as many get in as the size test of the builder leaves room for, and the first refusal ends it |
| TimeArithmetic.AtLeastIsOrder | live/BasicUsageEnvironment/DelayQueue.cpp:28-32 | Comparison of normal times is that of their microseconds |
| TimeArithmetic.PlusAdds | live/BasicUsageEnvironment/DelayQueue.cpp:34-40 | Addition of normal times adds microseconds |
| TimeArithmetic.MinusSubtracts | live/BasicUsageEnvironment/DelayQueue.cpp:42-65 | Subtraction of something not larger is exact up to INT_MAX seconds; beyond, exact or zero |
| TimeArithmetic.ElapsedIsSpent | live/BasicUsageEnvironment/DelayQueue.cpp:53-65 | Between two event times, whose seconds are unsigned, the difference is exact up to INT_MAX seconds and zero from 2^31 seconds on |
| DelayList.DeadlinesInserted | live/BasicUsageEnvironment/DelayQueue.cpp:126-137 | Inserting a delta and taking it from the next leaves all other deadlines as they are |
| DelayList.DeadlinesRemoved | live/BasicUsageEnvironment/DelayQueue.cpp:156 | Adding a removed delta to the next leaves all other deadlines as they are |
| DelayList.DeadlinesAdvanced | live/BasicUsageEnvironment/DelayQueue.cpp:209-216 | Zeroing a prefix and shortening the next delta moves each deadline to the later of itself and the present |
| DelayList.TotalInserted | live/BasicUsageEnvironment/DelayQueue.cpp:132 | The sum of all deltas, sentinel included, survives an insertion |
| DelayList.TotalRemoved | live/BasicUsageEnvironment/DelayQueue.cpp:156 | It survives a removal |
| DelayList.TotalAdvanced | live/BasicUsageEnvironment/DelayQueue.cpp:211-216 | It falls by exactly the time spent |
| DelayList.SpentAdvances | live/BasicUsageEnvironment/DelayQueue.cpp:206-216 | What the loop of synchronize leaves, measured time or not: the deadlines brought up to the clock, and the sum less the time measured |
| DelayList.PlaceOfDeadline | live/BasicUsageEnvironment/DelayQueue.cpp:126-137 | The place found keeps deadlines sorted, equal ones in order of insertion |
| DelayList.SynchronizeStops | live/BasicUsageEnvironment/DelayQueue.cpp:206-215 | With subtraction as it is, the loop ends if and only if the time measured between the two clock readings is below the sum; 2^31 seconds or more measure as none |
| DelayList.FirstRounds | live/BasicUsageEnvironment/DelayQueue.cpp:211-215 | Until it passes the sentinel the loop spends delta after delta |
| DelayList.NeverLeaves | live/BasicUsageEnvironment/DelayQueue.cpp:211-215 | With the whole sum or more to spend, no round is the last |
| DelayQueue.DelayQueue.Synchronize | live/BasicUsageEnvironment/DelayQueue.cpp:198-217 | Deadlines become max(deadline, now); with the clock gone back, or forward by 2^31 seconds, remaining delays are kept; the sum falls by the time measured |
| DelayQueue.DelayQueue.SpendTime | live/BasicUsageEnvironment/DelayQueue.cpp:209-216 | The loop stops at or before the sentinel and spends exactly the elapsed time |
| DelayQueue.DelayQueue.AddEntry | live/BasicUsageEnvironment/DelayQueue.cpp:123-138 | Links the entry in at the place of its deadline, others unchanged; it is due after its delay exactly when that is below the sum of the list, and otherwise before the sentinel |
| DelayQueue.DelayQueue.RemoveEntry | live/BasicUsageEnvironment/DelayQueue.cpp:153-161 | Takes the entry out, all other deadlines and the sum unchanged; no-op on a null or unlinked entry |
| DelayQueue.DelayQueue.UpdateEntry | live/BasicUsageEnvironment/DelayQueue.cpp:140-146 | Removal and addition in one: the entry moves, the others keep their deadlines; one that is not linked is only added |
| DelayQueue.DelayQueue.FindEntryByToken | live/BasicUsageEnvironment/DelayQueue.cpp:188-196 | The first entry with the token, or null when there is none |
| DelayQueue.DelayQueue.SynchronizeUnlessDue | live/BasicUsageEnvironment/DelayQueue.cpp:170-177 | The clock is read exactly when the first entry is not due already |
| DelayQueue.DelayQueue.TimeToNextAlarm | live/BasicUsageEnvironment/DelayQueue.cpp:169-174 | What is left until the first deadline, at once when it is due |
| DelayQueue.DelayQueue.HandleAlarm | live/BasicUsageEnvironment/DelayQueue.cpp:176-186 | Takes out the first entry exactly when its deadline has passed, and nothing else |
| DelayRuns.RunsInDueOrder | live/BasicUsageEnvironment/DelayQueue.cpp:123-186 | On every run of the queue on values with a clock that does not go back nor 2^31 seconds forward at once, nothing fires before its time and everything fires in order of due times, ties in order of entering, updates included; tokens stay unique |
| DelayRuns.AlarmFiresIffDue | live/BasicUsageEnvironment/DelayQueue.cpp:176-186 | An alarm runs one task if and only if some task is due, and then the first in that order |
| DelayRuns.ServedBeforeEnd | live/BasicUsageEnvironment/DelayQueue.cpp:123-217 | Under such a clock the heap queue follows the whole run if all readings and due times are below the creation time plus ETERNITY |
| DelayRuns.ScheduledKeepsIff | live/BasicUsageEnvironment/DelayQueue.cpp:127-130 | A task scheduled leaves all tasks on time if and only if its due time is before the deadline of the sentinel |
| DelayRuns.EntryIsScheduled | live/BasicUsageEnvironment/DelayQueue.cpp:123-138 | The queue that addEntry leaves is the scheduled one, with the promise kept exactly below the sum |
| DelayRuns.TooLongIsEarly | live/BasicUsageEnvironment/DelayQueue.cpp:127-130 | A task for the whole sum or longer, alone in a new queue, runs before its time |
| DelayedTasks.DelayedTasks.ScheduleDelayedTask | live/BasicUsageEnvironment/BasicTaskScheduler0.cpp:59-68 | The step on values when the due time is before the sentinel; the deadline is the promised one exactly then, and earlier otherwise |
| DelayedTasks.DelayedTasks.UnscheduleDelayedTask | live/BasicUsageEnvironment/BasicTaskScheduler0.cpp:70-74 | The step on values: the first task with the token is gone, or none |
| DelayedTasks.DelayedTasks.UpdateEntry | live/BasicUsageEnvironment/DelayQueue.cpp:140-151 | The step on values: the task of the token entered anew, or none |
| DelayedTasks.DelayedTasks.TimeToNextAlarm | live/BasicUsageEnvironment/DelayQueue.cpp:169-174 | The step on values, and the time to the first deadline |
| DelayedTasks.DelayedTasks.HandleAlarm | live/BasicUsageEnvironment/DelayQueue.cpp:176-186 | The step on values: runs the first task if it is due, and tells which |
| DelayedTasks.DelayedTasks.constructor | live/BasicUsageEnvironment/DelayQueue.cpp:110-113 | No task, and the sentinel due ETERNITY from now |
| DelayedTasks.DelayedTasks.Perform | live/BasicUsageEnvironment/DelayQueue.cpp:123-217 | Any one operation on the heap queue is the step on values |
| DelayedTasks.DelayedTasks.PerformAll | live/BasicUsageEnvironment/DelayQueue.cpp:123-217 | Any sequence of operations the queue serves leaves the heap as the run on values says, so with such a clock all fired on time and in due order |
| DelayedTasks.LongDelayFiresEarly | live/BasicUsageEnvironment/DelayQueue.cpp:127-130 | On a new queue any task for 2^31 seconds less a microsecond, or longer, runs before its time |
| BasicHashTable.BasicHashTable.constructor | live/BasicUsageEnvironment/BasicHashTable.cpp:34-41 | An empty map in four buckets |
| BasicHashTable.BasicHashTable.LookupKey | live/BasicUsageEnvironment/BasicHashTable.cpp:129-139 | Walks the one chain that the key can be in and finds its entry if and only if the map has the key |
| BasicHashTable.BasicHashTable.Lookup | live/BasicUsageEnvironment/BasicHashTable.cpp:86-92 | The value of the map |
| BasicHashTable.BasicHashTable.Add | live/BasicUsageEnvironment/BasicHashTable.cpp:56-74 | Updates the map at one key and gives the old value; entries stay below three per bucket; what is new in the table is freshly made |
| BasicHashTable.BasicHashTable.Remove | live/BasicUsageEnvironment/BasicHashTable.cpp:76-84 | Takes one key from the map and tells whether it was there; no entry is added |
| BasicHashTable.BasicHashTable.Rebuild | live/BasicUsageEnvironment/BasicHashTable.cpp:222-253 | Four times the buckets, the same map and the same entries, each in the chain of its new index |
| BasicHashTable.BasicHashTable.Grow | live/BasicUsageEnvironment/BasicHashTable.cpp:222-235 | The new, empty buckets, with every entry still to be moved |
| BasicHashTable.BasicHashTable.Rehash | live/BasicUsageEnvironment/BasicHashTable.cpp:237-249 | The double loop moves every entry of every old bucket and loses or repeats none |
| BasicHashTable.BasicHashTable.DrainBucket | live/BasicUsageEnvironment/BasicHashTable.cpp:240-248 | One old bucket is emptied into the new ones |
| BasicHashTable.BasicHashTable.DeleteEntry | live/BasicUsageEnvironment/BasicHashTable.cpp:186-210 | Unlinks exactly that entry and keeps the rest |
| BasicHashTable.UnlinkAt | live/BasicUsageEnvironment/BasicHashTable.cpp:187-197 | The search for the link to overwrite removes exactly that entry from its chain |
| BasicHashTable.HashedAfterPush | live/BasicUsageEnvironment/BasicHashTable.cpp:159-163 | An entry put at the head of the chain of its index keeps every entry in exactly one chain, its own |
| BasicHashTable.HashedAfterDelete | live/BasicUsageEnvironment/BasicHashTable.cpp:189-197 | Removing one entry from its chain keeps that |
| BasicHashTable.JoinedHoldsEachOnce | live/BasicUsageEnvironment/BasicHashTable.cpp:98-114 | All chains joined hold every entry exactly once |
| BasicHashTable.Iterator.Next | live/BasicUsageEnvironment/BasicHashTable.cpp:102-114 | Gives the entries ahead one by one, skipping empty buckets; none exactly at the end |
| BasicHashTable.Iterate | live/BasicUsageEnvironment/BasicHashTable.cpp:98-114 | A whole iteration over an unchanged table gives every association once and nothing else |
| BasicHashTable.Perform | live/BasicUsageEnvironment/BasicHashTable.cpp:56-92 | Any one operation on the table is that on the map, with its answer |
| BasicHashTable.PerformAll | live/BasicUsageEnvironment/BasicHashTable.cpp:56-92 | Over every run of additions, removals and lookups, rebuilds included, the table gives the answers of the map and holds what the map holds |
| KeyHashTable.AgreeAfterAdd | jrtplib-3.8.2/src/rtpkeyhashtable.h:279-297 | Bucket chains and insertion list hold the same elements after an addition |
| KeyHashTable.AgreeAfterDelete | jrtplib-3.8.2/src/rtpkeyhashtable.h:122-159 | And after a deletion |
| KeyHashTable.RTPKeyHashTable.AddElement | jrtplib-3.8.2/src/rtpkeyhashtable.h:250-299 | Appends to the insertion-ordered map; fails on a bad index or a known key |
| KeyHashTable.RTPKeyHashTable.DeleteCurrentElement | jrtplib-3.8.2/src/rtpkeyhashtable.h:114-168 | Removes the element under the cursor from both structures; the cursor is at its successor |
| KeyHashTable.RTPKeyHashTable.GotoElement | jrtplib-3.8.2/src/rtpkeyhashtable.h:170-192 | Cursor at the element with the key, or nowhere |
| KeyHashTable.RTPKeyHashTable.HasElement | jrtplib-3.8.2/src/rtpkeyhashtable.h:194-215 | Whether the map has the key |
| KeyHashTable.RTPKeyHashTable.GotoNextElement | jrtplib-3.8.2/src/rtpkeyhashtable.h:217-222 | One further in insertion order |
| KeyHashTable.RTPKeyHashTable.GotoPreviousElement | jrtplib-3.8.2/src/rtpkeyhashtable.h:224-229 | One back in insertion order |
| KeyHashTable.RTPKeyHashTable.DeleteElement | jrtplib-3.8.2/src/rtpkeyhashtable.h:301-310 | Removes the element with a key |
| KeyHashTable.RTPKeyHashTable.Clear | jrtplib-3.8.2/src/rtpkeyhashtable.h:231-248 | Empties both structures but leaves the cursor as it was, dangling unless it was null |
| KeyHashTable.RTPKeyHashTable.Sweep | jrtplib-3.8.2/src/rtpkeyhashtable.h:114-222 | A traversal that deletes some current elements as it goes visits every element once, in order, and keeps exactly the others |
| SourceStats.ReceiveExtends | jrtplib-3.8.2/src/rtpsourcedata.cpp:141-176 | After the first accepted packet: the number given is the unbounded extension modulo 2^32, has the 16 bits of the packet, and the highest is the maximum |
| SourceStats.ExtendIsExact | jrtplib-3.8.2/src/rtpsourcedata.cpp:152-174 | The extension keeps its distance from the true index exactly inside the window: ahead by less than 32768 into the next cycle or anywhere ahead in the same one, or behind by at most 32768 in it |
| SourceStats.Reconstruction | jrtplib-3.8.2/src/rtpsourcedata.cpp:48-73 | Over a whole run the true indexes are recovered up to a constant if, and without the 32-bit wrap only if, every packet keeps to the window |
| SourceStats.LatePacketFromBeforeWrap | jrtplib-3.8.2/src/rtpsourcedata.cpp:153-157 | A late packet from before a wrap is taken for a new one, 65536 too high |
| SourceStats.HighestBoundsAll | jrtplib-3.8.2/src/rtpsourcedata.cpp:75-176 | In every run below 2^32 the highest number never falls, bounds every number given, and probation never returns |
| SourceStats.RunTracks | jrtplib-3.8.2/src/rtpsourcedata.cpp:141-176 | The 32-bit fields follow the unbounded highest number through every run of packets and interval ends |
| SourceStats.AcceptedFromThirdInRow | jrtplib-3.8.2/src/rtpsourcedata.cpp:83-130 | Under probation packets are accepted exactly from the first that completes three in a row on |
| SourceStats.ProbationCounts | jrtplib-3.8.2/src/rtpsourcedata.cpp:88-119 | The probation counter is what is left of three in a row |
| SourceStats.NoneNewMeansNoneHigher | jrtplib-3.8.2/src/rtpsourcedata.h:112-114 | An interval that has had no packet, and not 2^32 of them either, has its saved number equal to the highest |
| SourceStats.FractionFitsByte | jrtplib-3.8.2/src/rtcppacketbuilder.cpp:366-380 | In every run with fewer than 2^32 packets in its last interval the fraction is defined exactly when the interval has a packet, and is then the missing 256ths rounded down, at most 255, or 0 with duplicates |
| LossRuns.StatisticsOfRun | jrtplib-3.8.2/src/rtpsourcedata.cpp:83-181 | Over every run of packets and reports below 2^32: what the fields hold is the first number given, the highest, how many packets have counted, how many since the last report, and the highest number then |
| LossRuns.FirstAccepted | jrtplib-3.8.2/src/rtpsourcedata.cpp:85-140 | The first packet that counts, told from the packets alone, is the first accepted |
| LossRuns.HighestIsGiven | jrtplib-3.8.2/src/rtpsourcedata.cpp:141-181 | The highest number of a run of any length is the highest of those given |
| LossRuns.ExpectedLessReceived | jrtplib-3.8.2/src/rtcppacketbuilder.cpp:382-386 | What is expected less what has come is the numbers missing less the packets that repeat a number or belong before the first |
| LossRuns.FractionOfRun | jrtplib-3.8.2/src/rtcppacketbuilder.cpp:367-380 | The fraction of a report is the 256ths missing of what is expected since the last one, rounded down; 0 with duplicates; undefined exactly without packets |
| SourceState.MinusWraps | jrtplib-3.8.2/src/rtptimeutilities.h:238-248 | Subtraction of times is exact, or 2^32 seconds too much when negative |
| SourceState.OlderThan | jrtplib-3.8.2/src/rtptimeutilities.h:238-284 | What "older than the delay" means in the passes, including the wrap |
| SourceState.CheckedBinds | jrtplib-3.8.2/src/rtpsources.cpp:1328-1412 | A sender passes exactly when it equals the bound address, else shares the host of the other one; then it is bound and both stay null or of one host |
| SourceState.InsertedIsSorted | jrtplib-3.8.2/src/rtpinternalsourcedata.cpp:130-169 | The search from the back keeps the queue strictly increasing |
| SourceState.InsertedContents | jrtplib-3.8.2/src/rtpinternalsourcedata.cpp:130-169 | It adds the packet exactly when its number is not there |
| SourceState.PacketKeepsQueue | jrtplib-3.8.2/src/rtpinternalsourcedata.cpp:53-172 | The queue stays strictly increasing and at 32 at most while unvalidated; `stored` exactly when the packet entered; what leaves is the lowest, under the cap only |
| SourceState.QueueConserves | jrtplib-3.8.2/src/rtpsourcedata.h:451-463 | Over every run each packet stored is exactly one of queued, extracted and thrown out, and extraction takes the minimum |
| SourceState.ValidatedByThreeInRow | jrtplib-3.8.2/src/rtpinternalsourcedata.cpp:65-106 | Without CNAME or CSRC, a source under probation is validated exactly when three in a row have come, whenever they came |
| InternalSourceData.RTPInternalSourceData.constructor | jrtplib-3.8.2/src/rtpsourcedata.cpp:258-274 | A new entry |
| InternalSourceData.RTPInternalSourceData.ProcessPacket | jrtplib-3.8.2/src/rtpsourcedata.cpp:75-256 | Probation, extended numbers and receive times after a packet, the number written into it and the two flags; jitter is left out |
| InternalSourceData.RTPInternalSourceData.AcceptPacket | jrtplib-3.8.2/src/rtpsourcedata.cpp:48-73 | Base, cycles, highest and counters of the first packet that counts; what jitter needs is left out |
| InternalSourceData.RTPInternalSourceData.ProbePacket | jrtplib-3.8.2/src/rtpsourcedata.cpp:86-130 | One step of probation |
| InternalSourceData.RTPInternalSourceData.ContinuePacket | jrtplib-3.8.2/src/rtpsourcedata.cpp:143-176 | One step of extended sequence numbers |
| InternalSourceData.RTPInternalSourceData.Judge | jrtplib-3.8.2/src/rtpinternalsourcedata.cpp:58-106 | Probation policy: validation, sender flag, and whether the packet may enter the queue |
| InternalSourceData.RTPInternalSourceData.Settle | jrtplib-3.8.2/src/rtpinternalsourcedata.cpp:65-106 | By probation type: who is validated, who becomes a sender, and what may enter the queue |
| InternalSourceData.RTPInternalSourceData.Insert | jrtplib-3.8.2/src/rtpinternalsourcedata.cpp:130-169 | The loop puts the packet at its place or drops it |
| InternalSourceData.RTPInternalSourceData.ProcessRTPPacket | jrtplib-3.8.2/src/rtpinternalsourcedata.cpp:53-172 | The whole new entry and the `stored` flag |
| InternalSourceData.RTPInternalSourceData.ProcessSDESItem | jrtplib-3.8.2/src/rtpinternalsourcedata.cpp:174-246 | CNAME, name, e-mail and tool are settled by the first item, the others by the last; CNAME validates; a different CNAME collides |
| InternalSourceData.RTPInternalSourceData.ProcessBYEPacket | jrtplib-3.8.2/src/rtpinternalsourcedata.cpp:263-281 | Marks the entry with time and reason |
| InternalSourceData.RTPInternalSourceData.GetNextPacket | jrtplib-3.8.2/src/rtpsourcedata.h:451-463 | The packet with the lowest number of a validated source |
| InternalSourceData.RTPInternalSourceData.StartNewInterval | jrtplib-3.8.2/src/rtpsourcedata.h:114 | No new packets, and the highest number saved |
| InternalSourceData.RTPInternalSourceData.SentRTPPacket | jrtplib-3.8.2/src/rtpinternalsourcedata.h:70 | Only our own entry becomes a sender by sending |
| SourceRuns.ReplacedKeeps | jrtplib-3.8.2/src/rtpsources.cpp:321-324 | Counting on the change of a flag keeps the counts as exact as they were |
| SourceRuns.RtcpKeeps | jrtplib-3.8.2/src/rtpsources.cpp:686-740 | No RTCP item changes the difference between active entries and active count, and totals and senders stay exact |
| SourceRuns.RtpKeeps | jrtplib-3.8.2/src/rtpsources.cpp:286-357 | An RTP packet adds to that difference exactly its uncounted contributing sources |
| SourceRuns.SlipsAreUncounted | jrtplib-3.8.2/src/rtpsources.cpp:348-352 | Those are the named entries that are there, unvalidated, without BYE and not colliding, repetitions apart |
| SourceRuns.ActiveCountFallsBehind | jrtplib-3.8.2/src/rtpsources.cpp:348-352 | Two packets suffice to leave the active count one short |
| SourceRuns.OwnKeeps | jrtplib-3.8.2/src/rtpsources.cpp:93-118 | Creating our own entry keeps everything in order |
| SourceRuns.WithoutOwnKeeps | jrtplib-3.8.2/src/rtpsources.cpp:120-141 | So does deleting it |
| SourceRuns.SentKeeps | jrtplib-3.8.2/src/rtpsources.cpp:143-153 | And sending |
| SourceRuns.PassKeeps | jrtplib-3.8.2/src/rtpsources.cpp:937-939 | A pass makes all three counts exact, whatever they were, and never takes our own entry |
| SourceRuns.PassesCompose | jrtplib-3.8.2/src/rtpsources.cpp:1129-1258 | MultipleTimeouts is SenderTimeout, BYETimeout, Timeout and NoteTimeout one after the other: same entries, order, flags, notes and counts |
| SourceRuns.StepKeeps | jrtplib-3.8.2/src/rtpsources.cpp:93-1258 | Every operation keeps the invariant of the table and moves the difference as stated; our own entry goes only by DeleteOwnSSRC |
| SourceRuns.CountsOverRuns | jrtplib-3.8.2/src/rtpsources.cpp:93-1258 | On every run totals and senders are exact, and the active count lacks exactly the contributing sources uncounted since the last pass |
| SourceRuns.PacketsAreGuarded | jrtplib-3.8.2/src/rtpsources.cpp:301-310 | A packet changes an entry only if its sender passes the check there |
| SourceRuns.StepStays | jrtplib-3.8.2/src/rtpsources.cpp:1328-1412 | No operation changes an address that was set |
| SourceRuns.AddressesStayOverRuns | jrtplib-3.8.2/src/rtpsources.cpp:1328-1412 | Over any run, an address once set stays the same as long as the source is in the table |
| SourceReports.CompoundOnlyRtcp | jrtplib-3.8.2/src/rtpsources.cpp:359-526 | A compound packet leads to RTCP operations only |
| SourceReports.CompoundKeeps | jrtplib-3.8.2/src/rtpsources.cpp:359-526 | No compound packet puts the counts out or touches the standing of our own entry, wherever it stops |
| SourceReports.CompoundStops | jrtplib-3.8.2/src/rtpsources.cpp:695-720 | Processing stops early exactly at an item that is neither private nor of one of the seven kinds |
| CompoundEffects.CompoundBecomes | jrtplib-3.8.2/src/rtpsources.cpp:359-526 | What any compound packet makes of each source, told from its contents up to where processing stops: a BYE marks every source but our own, with time and last reason, and it is not active; the texts of the seven wire numbers reach the entry of their chunk under their kind, first or last kept; reports and chunks leave the time; the address is bound; entries not named, or whose sender does not fit, stay as they were; the active count follows |
| CompoundEffects.CompoundSays | jrtplib-3.8.2/src/rtpsources.cpp:371-522 | A compound packet in which nothing stops leads to operations that say of each source just what its reports, chunks, items and BYEs say |
| CompoundEffects.CompoundStopsThere | jrtplib-3.8.2/src/rtpsources.cpp:454-478 | What is processed is the contents before the first item that is neither private nor of the seven kinds, and that is all of it exactly when there is none |
| CompoundEffects.PacketSays | jrtplib-3.8.2/src/rtpsources.cpp:373-520 | What one packet leads to is said by its sender, chunks or list of leaving sources |
| CompoundEffects.ItemSays | jrtplib-3.8.2/src/rtpsources.cpp:458-476 | An item of wire number 1 to 7 says its text under that kind, and a private one that the source is there |
| CompoundEffects.RunBecomes | jrtplib-3.8.2/src/rtpsources.cpp:640-876 | Any run of RTCP operations of one sender at one time, source by source |
| CompoundEffects.RtcpBySource | jrtplib-3.8.2/src/rtpsources.cpp:827-854 | One RTCP operation changes the entry of its source and no other |
| CompoundEffects.DescribedNext | jrtplib-3.8.2/src/rtpinternalsourcedata.cpp:174-242 | One more operation: CNAME, name, e-mail and tool keep the first text, the others have the last, and the first CNAME validates |
| CompoundEffects.MarkedNext | jrtplib-3.8.2/src/rtpinternalsourcedata.cpp:174-282 | One more operation: message time, BYE, its time and reason; our own entry is never marked |
| Sources.RTPSources.ObtainSourceDataInstance | jrtplib-3.8.2/src/rtpsources.cpp:795-824 | The entry of an SSRC, made if it was not there, and nothing else changed |
| Sources.RTPSources.CheckCollision | jrtplib-3.8.2/src/rtpsources.cpp:1328-1412 | True on a collision, with the entry untouched; otherwise the address is bound |
| Sources.RTPSources.AdmittedSource | jrtplib-3.8.2/src/rtpsources.cpp:827-854 | The entry a packet is for, with its sender checked, or nothing and nothing changed |
| Sources.RTPSources.ProcessRTPPacket | jrtplib-3.8.2/src/rtpsources.cpp:286-357 | The whole table afterwards, contributing sources included, source by source, and the `stored` flag; entries are old ones or new |
| Sources.RTPSources.ReceivePacket | jrtplib-3.8.2/src/rtpsources.cpp:286-331 | The packet at its own source, and the contributing sources that it vouches for once that is validated |
| Sources.RTPSources.ProcessCSRCs | jrtplib-3.8.2/src/rtpsources.cpp:329-354 | The loop over the contributing sources |
| Sources.RTPSources.ProcessCSRC | jrtplib-3.8.2/src/rtpsources.cpp:339-352 | One contributing source, counted only when new |
| Sources.RTPSources.UpdateReceiveTime | jrtplib-3.8.2/src/rtpsources.cpp:856-876 | The table after a sign of life |
| Sources.RTPSources.ProcessSDESNormalItem | jrtplib-3.8.2/src/rtpsources.cpp:686-740 | The table after an SDES item |
| Sources.RTPSources.ProcessBYE | jrtplib-3.8.2/src/rtpsources.cpp:765-793 | The table after a BYE, which is ignored for our own entry |
| Sources.RTPSources.ProcessRTCPCompoundPacket | jrtplib-3.8.2/src/rtpsources.cpp:359-526 | The table afterwards, as `CompoundEffects.CompoundBecomes` tells it from the contents, and success exactly when no item stops it; of reports only the sign of life |
| Sources.RTPSources.ProcessPacket | jrtplib-3.8.2/src/rtpsources.cpp:371-522 | The same for one packet: the operations it leads to and, source by source, what they make of the table |
| Sources.RTPSources.ProcessReports | jrtplib-3.8.2/src/rtpsources.cpp:386-409 | A sign of life for each block about us, or one if there is none |
| Sources.RTPSources.ProcessItems | jrtplib-3.8.2/src/rtpsources.cpp:454-478 | The loop over the items of a chunk |
| Sources.RTPSources.CreateOwnSSRC | jrtplib-3.8.2/src/rtpsources.cpp:93-118 | Our own entry there, validated, counted and bound to no address, every other as it was; fails when there is one or the SSRC is taken |
| Sources.RTPSources.DeleteOwnSSRC | jrtplib-3.8.2/src/rtpsources.cpp:120-141 | Takes our own entry and its counts away |
| Sources.RTPSources.DropOwn | jrtplib-3.8.2/src/rtpsources.cpp:125-139 | Our own entry and its share of the counts gone |
| Sources.RTPSources.SentRTPPacket | jrtplib-3.8.2/src/rtpsources.cpp:143-153 | Our own entry becomes a sender and is counted once |
| Sources.RTPSources.GetNextPacket | jrtplib-3.8.2/src/rtpsources.cpp:630-638 | The lowest packet of the entry at a place, which is where the cursor stands |
| Sources.RTPSources.Timeout | jrtplib-3.8.2/src/rtpsources.cpp:878-940 | In microseconds, by SSRC: an entry stays, unchanged, exactly when it is our own or its last message is no older than the delay; the counts are exact, from any starting counts |
| Sources.RTPSources.SenderTimeout | jrtplib-3.8.2/src/rtpsources.cpp:942-995 | In microseconds, by SSRC: all stay, and a sender stays one exactly when its last RTP packet is no older than the delay |
| Sources.RTPSources.BYETimeout | jrtplib-3.8.2/src/rtpsources.cpp:997-1068 | In microseconds, by SSRC: an entry stays exactly when it is our own or has no BYE older than the delay |
| Sources.RTPSources.NoteTimeout | jrtplib-3.8.2/src/rtpsources.cpp:1070-1127 | In microseconds, by SSRC: all stay, and a note is dropped exactly when it is older than the delay |
| Sources.RTPSources.MultipleTimeouts | jrtplib-3.8.2/src/rtpsources.cpp:1129-1258 | In microseconds, by SSRC: all four timeouts in one pass |
| Sources.RTPSources.CountInHand | jrtplib-3.8.2/src/rtpsources.cpp:910-914 | An entry that stays is counted |
| Sources.RTPSources.SweepSender | jrtplib-3.8.2/src/rtpsources.cpp:951-966 | One entry in the sender pass: flag and count |
| Sources.RTPSources.SweepNote | jrtplib-3.8.2/src/rtpsources.cpp:1079-1101 | One entry in the note pass |
| Sources.RTPSources.TakeCounts | jrtplib-3.8.2/src/rtpsources.cpp:937-939 | The counts taken on the way are those of the table left |
| SourceSessions.Perform | jrtplib-3.8.2/src/rtpsources.cpp:93-1258 | Any one call on the object is what its events say on the table as a value |
| SourceSessions.PerformAll | jrtplib-3.8.2/src/rtpsources.cpp:93-1258 | So is any sequence of calls |
| SourceSessions.Session | jrtplib-3.8.2/src/rtpsources.cpp:93-1258 | After any calls on a new object its total and sender counts are those of its entries, and the active count lacks exactly the contributing sources uncounted since the last pass |
| PacketEffects.PacketBecomes | jrtplib-3.8.2/src/rtpsources.cpp:286-357 | What any RTP packet makes of each source: its own one is bound, validated, a sender and stamped exactly when the packet counts; contributing sources are validated once that one is, if their sender fits; all others stay, and nothing changes on a collision |
| PacketEffects.PacketTakes | jrtplib-3.8.2/src/rtpinternalsourcedata.cpp:53-172 | An entry after a packet of its own |
| PacketEffects.ReceivedBySource | jrtplib-3.8.2/src/rtpsources.cpp:294-328 | The packet changes the entry of its source and no other |
| PacketEffects.CsrcsBySource | jrtplib-3.8.2/src/rtpsources.cpp:329-354 | The loop over the contributing sources, source by source |
| PacketEffects.SentBecomes | jrtplib-3.8.2/src/rtpsources.cpp:143-153 | A packet of ours makes our own entry a sender at that time, and no other |
| PacketEffects.OwnBecomes | jrtplib-3.8.2/src/rtpsources.cpp:93-118 | Our own entry is there, validated and bound to no address, exactly when there was none and the SSRC was free |
| PacketEffects.WithoutOwnBecomes | jrtplib-3.8.2/src/rtpsources.cpp:120-141 | Our own entry, and no other, is gone |
| ReportBlocks.DueAtIsAll | jrtplib-3.8.2/src/rtcppacketbuilder.cpp:333-360 | The places listed are all sources due, in table order |
| ReportBlocks.DueAfter | jrtplib-3.8.2/src/rtcppacketbuilder.cpp:329-495 | One fill after the other reaches each due source once, in table order |
| ReportBlocks.EligibleIsRecent | jrtplib-3.8.2/src/rtcppacketbuilder.cpp:337-358 | In microseconds: after the first packet only sources with an RTP packet since the last build are reported |
| ReportBlocks.BlockOfRun | jrtplib-3.8.2/src/rtcppacketbuilder.cpp:366-432 | The block after any run below 2^32, from the packets alone: the cumulative number is the highest number less the first, plus 1, less the packets that counted, which is those missing less those there twice or too early, if and only if that fits a signed word |
| ReportBlocks.FillInReportBlocks | jrtplib-3.8.2/src/rtcppacketbuilder.cpp:319-499 | Blocks for the first due sources, as many as fit and are asked for, each once, from their statistics before; exactly those start a new interval; what is due afterwards is the rest, in order; the flags tell why it stopped and whether any due source is left |
| ReportBlocks.Fill | jrtplib-3.8.2/src/rtcppacketbuilder.cpp:329-447 | The loop over the sources |
| ReportBlocks.SearchDue | jrtplib-3.8.2/src/rtcppacketbuilder.cpp:453-495 | The search for a source still due |
| ReportBlocks.Cover | jrtplib-3.8.2/src/rtcppacketbuilder.cpp:366-432 | The block of a source, whose losses `ReportBlocks.BlockOfRun` tells from its packets, and the restart of its interval |
| RtcpScheduler.FromRealRounds | jrtplib-3.8.2/src/rtptimeutilities.h:128-135 | Seconds and rest converted apart are the microseconds rounded down |
| RtcpScheduler.IntervalAtLeast | jrtplib-3.8.2/src/rtcpscheduler.cpp:247-313 | A transmission interval is at least half the minimum interval by 1.21828, the minimum halved before the first packet when so configured |
| RtcpScheduler.ByeIntervalAtLeast | jrtplib-3.8.2/src/rtcpscheduler.cpp:391-417 | So is the interval of a BYE that is not to go at once |
| RtcpScheduler.LeastIntervalIsHalf | jrtplib-3.8.2/src/rtcpscheduler.cpp:304-306 | That bound is 0.5 tmin / 1.21828 but for less than two microseconds |
| RtcpScheduler.ReconsideredKeeps | jrtplib-3.8.2/src/rtcpscheduler.cpp:315-354 | Reverse reconsideration never moves the previous time back and keeps the next one between now and the later of now and itself |
| RtcpScheduler.ByeBacksOff | jrtplib-3.8.2/src/rtcpscheduler.cpp:211-225 | A scheduled BYE waits its least interval |
| RtcpScheduler.PacketsAreSpaced | jrtplib-3.8.2/src/rtcpscheduler.cpp:157-354 | On every run without a BYE, with a clock that does not go back, two packets allowed in succession are at least the least interval apart |
| RtcpScheduler.IntervalIsDrawn | jrtplib-3.8.2/src/rtcpscheduler.cpp:247-313 | The interval as a number: the larger of the minimum, halved or not, and the members or senders times average size by their part of the bandwidth, in microseconds rounded down, times random + 0.5, by 1.21828, rounded down; this one and no other |
| RtcpScheduler.ByeIntervalIsDrawn | jrtplib-3.8.2/src/rtcpscheduler.cpp:391-417 | The same before a BYE: nothing at once, else the members that say BYE in the receivers part, rounded once |
| RtcpScheduler.IsTimeAnswers | jrtplib-3.8.2/src/rtcpscheduler.cpp:191-233 | After expiry: yes exactly when the interval drawn has gone by since the previous time, which is then now, with no BYE scheduled and a new interval drawn; otherwise the timer is put off to that time |
| RtcpScheduler.FirstCallDraws | jrtplib-3.8.2/src/rtcpscheduler.cpp:157-187 | The first call draws an interval and refuses |
| RtcpScheduler.IntervalAtMost | jrtplib-3.8.2/src/rtcpscheduler.cpp:297-313 | No interval is longer than one and a half times the one asked for, by 1.21828 |
| RtcpScheduler.AnsweredInTime | jrtplib-3.8.2/src/rtcpscheduler.cpp:157-233 | On every run whose intervals keep to a bound: a call that comes the bound or more after the timer was last set going is answered yes, and a refusal after expiry puts it off, never past that bound |
| RtcpScheduler.ByeInTime | jrtplib-3.8.2/src/rtcpscheduler.cpp:205-225 | A BYE is allowed no later than one and a half times its interval, by 1.21828, after it was scheduled |
| RtcpScheduler.ReconsideredScales | jrtplib-3.8.2/src/rtcpscheduler.cpp:315-354 | Reverse reconsideration: the time still to wait and the time since the previous packet become members by previous members of themselves, rounded down |
| RtcpScheduler.RTCPScheduler.IsTime | jrtplib-3.8.2/src/rtcpscheduler.cpp:178-233 | Yes exactly when it is not the first call, the timer has expired and the interval drawn, as a number, has gone by since the previous time; then the previous time is now and no BYE is scheduled; otherwise an expired timer is put off to then; two readings of the clock, two random numbers, no division by zero |
| RtcpScheduler.RTCPScheduler.CalculateDeterministicInterval | jrtplib-3.8.2/src/rtcpscheduler.cpp:247-295 | The interval from bandwidth share, senders, members and average size, whenever that share is not zero |
| RtcpScheduler.RTCPScheduler.CalculateTransmissionInterval | jrtplib-3.8.2/src/rtcpscheduler.cpp:297-313 | The randomised interval |
| RtcpScheduler.RTCPScheduler.CalculateBYETransmissionInterval | jrtplib-3.8.2/src/rtcpscheduler.cpp:391-417 | The randomised interval of a BYE |
| RtcpScheduler.RTCPScheduler.GetTransmissionDelay | jrtplib-3.8.2/src/rtcpscheduler.cpp:157-176 | After the delay the timer has expired, and not before; the first call draws the interval, as a number |
| RtcpScheduler.RTCPScheduler.PerformReverseReconsideration | jrtplib-3.8.2/src/rtcpscheduler.cpp:315-354 | The time still to wait and the time since the previous packet become members by previous members of themselves; nothing before the first call |
| RtcpScheduler.RTCPScheduler.ActiveMemberDecrease | jrtplib-3.8.2/src/rtcpscheduler.cpp:385-389 | The same, only when the number of members has fallen |
| RtcpScheduler.RTCPScheduler.AnalyseIncoming | jrtplib-3.8.2/src/rtcpscheduler.cpp:108-134 | Without a BYE the average takes a sixteenth of the packet; with one, while a BYE of ours waits, the average of those does and its sender is counted; else nothing |
| RtcpScheduler.RTCPScheduler.AnalyseOutgoing | jrtplib-3.8.2/src/rtcpscheduler.cpp:136-155 | The average takes a sixteenth of the packet unless the scan finds a BYE, and a packet has been sent |
| RtcpScheduler.RTCPScheduler.FindsBye | jrtplib-3.8.2/src/rtcpscheduler.cpp:110-119 | Whether some packet is a BYE |
| RtcpScheduler.RTCPScheduler.ScheduleBYEPacket | jrtplib-3.8.2/src/rtcpscheduler.cpp:356-383 | Starts the BYE back-off: one member, its size, at once or not, and the next time the interval drawn, as a number, from now |
| RtcpScheduler.RTCPScheduler.StartBye | jrtplib-3.8.2/src/rtcpscheduler.cpp:361-379 | All that a scheduled BYE sets but the next time |
| HandlerList.AssignedIsUnique | live/BasicUsageEnvironment/BasicTaskScheduler0.cpp:188-200 | Assigning keeps sockets unique |
| HandlerList.ClearedIsUnique | live/BasicUsageEnvironment/BasicTaskScheduler0.cpp:202-205 | Clearing keeps them unique and leaves none of that socket |
| HandlerList.MovedIsUnique | live/BasicUsageEnvironment/BasicTaskScheduler0.cpp:207-212 | Moving keeps them unique exactly when no other handler has the new socket |
| HandlerList.AssignedHandler | live/BasicUsageEnvironment/BasicTaskScheduler0.cpp:188-200 | Assigning sets the handler of one socket and no other |
| HandlerList.ClearedHandler | live/BasicUsageEnvironment/BasicTaskScheduler0.cpp:202-205 | Clearing takes the handler of one socket and no other |
| HandlerList.MovedHandler | live/BasicUsageEnvironment/BasicTaskScheduler0.cpp:207-212 | Moving gives the handler to the new socket and leaves the old one without |
| HandlerList.ReadyIsAwaited | live/BasicUsageEnvironment/BasicTaskScheduler.cpp:121-124 | The conditions found for a socket are those of the sets it is in, and a handler is ready exactly when it has a procedure and waits for one of them |
| HandlerList.SomeAwaitedIsRun | live/BasicUsageEnvironment/BasicTaskScheduler.cpp:104-151 | A step runs nothing exactly when no handler awaits what was found |
| HandlerList.NearestIsRun | live/BasicUsageEnvironment/BasicTaskScheduler.cpp:104-151 | A step runs a handler exactly when one is ready, and none ready is nearer past the last handled |
| HandlerList.StepBringsNearer | live/BasicUsageEnvironment/BasicTaskScheduler.cpp:104-151 | A ready handler is run or comes nearer |
| HandlerList.ServedInTime | live/BasicUsageEnvironment/BasicTaskScheduler.cpp:104-151 | Of N handlers, one that stays ready is run within N steps |
| HandlerSet.HandlerSet.LookupHandler | live/BasicUsageEnvironment/BasicTaskScheduler0.cpp:214-221 | The first descriptor of a socket, or null |
| HandlerSet.HandlerSet.AssignHandler | live/BasicUsageEnvironment/BasicTaskScheduler0.cpp:188-200 | The list with the handler replaced, or put first; the ring stays well formed |
| HandlerSet.HandlerSet.LinkFirst | live/BasicUsageEnvironment/BasicTaskScheduler0.cpp:157-168 | The new descriptor in front of the first |
| HandlerSet.HandlerSet.ClearHandler | live/BasicUsageEnvironment/BasicTaskScheduler0.cpp:202-205 | The list without the handler |
| HandlerSet.HandlerSet.Unlink | live/BasicUsageEnvironment/BasicTaskScheduler0.cpp:170-174 | Neighbours joined |
| HandlerSet.HandlerSet.MoveHandler | live/BasicUsageEnvironment/BasicTaskScheduler0.cpp:207-212 | The first handler of the old socket renumbered |
| HandlerSet.HandlerIterator.Next | live/BasicUsageEnvironment/BasicTaskScheduler0.cpp:235-244 | One descriptor further, null at the end |
| TaskScheduler.HandlingAgrees | live/BasicUsageEnvironment/BasicTaskScheduler.cpp:190-210 | The sets for select hold just the sockets whose handler waits for the condition, and the bound stays above all sockets |
| TaskScheduler.MoveAgrees | live/BasicUsageEnvironment/BasicTaskScheduler.cpp:212-225 | They do after a move if and only if it is none, or there is no handler to move, or the new socket has none |
| TaskScheduler.BasicTaskScheduler.SetBackgroundHandling | live/BasicUsageEnvironment/BasicTaskScheduler.cpp:190-210 | Handlers, sets and bound afterwards |
| TaskScheduler.BasicTaskScheduler.MoveSocketHandling | live/BasicUsageEnvironment/BasicTaskScheduler.cpp:212-225 | Handlers, sets and bound afterwards |
| TaskScheduler.BasicTaskScheduler.SingleStep | live/BasicUsageEnvironment/BasicTaskScheduler.cpp:104-151 | The handler run has a procedure and waits for a condition found; the conditions it gets are those whose argument set and watched set hold its socket; none is run exactly when no handler waits for such a condition; it is the first past the last handled, whose socket is remembered |
| TaskScheduler.BasicTaskScheduler.SearchReady | live/BasicUsageEnvironment/BasicTaskScheduler.cpp:118-131 | The first ready handler from the iterator on |
| TaskScheduler.BasicTaskScheduler.BeginSearch | live/BasicUsageEnvironment/BasicTaskScheduler.cpp:109-117 | The iterator past the last handled socket, or at the beginning |
| DelayList.DeadlinesSorted | live/BasicUsageEnvironment/DelayQueue.cpp:123-138 | Deadlines never decrease along the list |
| DelayQueue.DelayQueue.constructor | live/BasicUsageEnvironment/DelayQueue.cpp:110-113 | An empty list with ETERNITY at the sentinel |
| DelayQueue.DelayQueue.FindPlace | live/BasicUsageEnvironment/DelayQueue.cpp:126-130 | The loop stops in front of the first entry due later, what is left of the delay being its delta |
| DelayQueue.DelayQueue.LinkBefore | live/BasicUsageEnvironment/DelayQueue.cpp:132-137 | The delta is taken from the next entry and the new one linked in before it |
| DelayQueue.DelayQueue.RemoveAt | live/BasicUsageEnvironment/DelayQueue.cpp:156-159 | The delta goes to the next entry and the neighbours are joined |
| BasicHashTable.BasicHashTable.InsertNewEntry | live/BasicUsageEnvironment/BasicHashTable.cpp:159-169 | A new entry at the head of the chain of its index, one more in the map |
| BasicHashTable.BasicHashTable.Overwrite | live/BasicUsageEnvironment/BasicHashTable.cpp:60-68 | The value of one key changed |
| BasicHashTable.BasicHashTable.MoveHead | live/BasicUsageEnvironment/BasicHashTable.cpp:242-247 | One entry goes from the head of its old chain to the head of its new one |
| BasicHashTable.HashIndex | live/BasicUsageEnvironment/BasicHashTable.cpp:255-277 | An index within the mask, for each of the three kinds of key |
| BasicHashTable.Iterator.TakeChain | live/BasicUsageEnvironment/BasicHashTable.cpp:103-107 | The next chain taken up, nothing ahead lost |
| KeyHashTable.RTPKeyHashTable.constructor | jrtplib-3.8.2/src/rtpkeyhashtable.h:102-112 | An empty table; nothing is said of the cursor |
| KeyHashTable.RTPKeyHashTable.Search | jrtplib-3.8.2/src/rtpkeyhashtable.h:176-188 | The element of a bucket with the key, or none |
| KeyHashTable.RTPKeyHashTable.Insert | jrtplib-3.8.2/src/rtpkeyhashtable.h:275-298 | A new element at the head of its bucket and at the end of the list |
| KeyHashTable.RTPKeyHashTable.DeleteAt | jrtplib-3.8.2/src/rtpkeyhashtable.h:119-163 | The four links around an element, bucket heads and list ends put right |
| KeyHashTable.RTPKeyHashTable.GotoLastElement | jrtplib-3.8.2/src/rtpkeyhashtable.h:57 | The last element in insertion order |
| CompoundPacketBuilder.RTCPCompoundPacketBuilder.constructor | jrtplib-3.8.2/src/rtcpcompoundpacketbuilder.cpp:49-60 | A builder that is not building and holds nothing |
| CompoundPacketBuilder.RTCPCompoundPacketBuilder.AddItem | jrtplib-3.8.2/src/rtcpcompoundpacketbuilder.cpp:325-342 | One framed item appended to the last source if the packet with it fits |
| CompoundPacketBuilder.RTCPCompoundPacketBuilder.AppFraming | jrtplib-3.8.2/src/rtcpcompoundpacketbuilder.cpp:490-515 | Header, SSRC, name and data are the APP of section 6.7 of RFC 3550 |
| PacketWriter.PutHeader | jrtplib-3.8.2/src/rtcpcompoundpacketbuilder.cpp:603-633 | The four header octets: version 2, no padding, count, type and word length |
| PacketWriter.CopyGroup | jrtplib-3.8.2/src/rtcpcompoundpacketbuilder.cpp:620-628 | At most 31 blocks copied one behind the other |
| PacketWriter.WriteGroup | jrtplib-3.8.2/src/rtcpcompoundpacketbuilder.cpp:664-723 | One SDES packet of at most 31 chunks |
| PacketWriter.CopyItems | jrtplib-3.8.2/src/rtcpcompoundpacketbuilder.cpp:681-688 | The items of a source copied one behind the other |
| PacketWriter.EndItems | jrtplib-3.8.2/src/rtcpcompoundpacketbuilder.cpp:690-702 | The terminating zero and zeros up to the next multiple of four |
| InternalSourceData.RTPInternalSourceData.Enqueue | jrtplib-3.8.2/src/rtpinternalsourcedata.cpp:110-169 | Empty queue, cap and search in one: the queue and the flag afterwards |
| InternalSourceData.RTPInternalSourceData.StoreItem | jrtplib-3.8.2/src/rtpinternalsourcedata.cpp:180-244 | Which items are taken, what validates, what collides |
| InternalSourceData.RTPInternalSourceData.UpdateMessageTime | jrtplib-3.8.2/src/rtpinternalsourcedata.h:59 | A sign of life |
| InternalSourceData.RTPInternalSourceData.SetRTPDataAddress | jrtplib-3.8.2/src/rtpinternalsourcedata.h:81-103 | The RTP address set |
| InternalSourceData.RTPInternalSourceData.SetRTCPDataAddress | jrtplib-3.8.2/src/rtpinternalsourcedata.h:105-127 | The RTCP address set |
| InternalSourceData.RTPInternalSourceData.ClearSenderFlag | jrtplib-3.8.2/src/rtpinternalsourcedata.h:69 | No sender any more |
| InternalSourceData.RTPInternalSourceData.SetOwnSSRC | jrtplib-3.8.2/src/rtpinternalsourcedata.h:71 | Our own entry is validated |
| InternalSourceData.RTPInternalSourceData.SetCSRC | jrtplib-3.8.2/src/rtpinternalsourcedata.h:72 | A contributing source is validated |
| InternalSourceData.RTPInternalSourceData.ClearNote | jrtplib-3.8.2/src/rtpinternalsourcedata.h:73 | The note gone |
| Sources.RTPSources.constructor | jrtplib-3.8.2/src/rtpsources.cpp:52-63 | An empty table |
| Sources.RTPSources.ProcessPackets | jrtplib-3.8.2/src/rtpsources.cpp:369-523 | The loop over the packets of a compound packet, with early stop |
| Sources.RTPSources.ProcessChunks | jrtplib-3.8.2/src/rtpsources.cpp:448-485 | The loop over the chunks |
| Sources.RTPSources.ProcessChunk | jrtplib-3.8.2/src/rtpsources.cpp:452-484 | Its items, or a sign of life when it has none |
| Sources.RTPSources.ProcessItem | jrtplib-3.8.2/src/rtpsources.cpp:458-476 | Private items are a sign of life, unknown ones stop |
| Sources.RTPSources.ProcessByes | jrtplib-3.8.2/src/rtpsources.cpp:489-503 | A BYE for each source named |
| Sources.RTPSources.SweepEntry | jrtplib-3.8.2/src/rtpsources.cpp:1146-1234 | One entry in the pass with four check times |
| SourceState.ItemSettles | jrtplib-3.8.2/src/rtpinternalsourcedata.cpp:180-244 | One item: whose text changes, when the source is validated, when the CNAME collides |
| SourceState.ItemsOverRuns | jrtplib-3.8.2/src/rtpinternalsourcedata.cpp:180-244 | Over any run of items, CNAME, name, e-mail and tool keep the first text given, phone, location and note have the last |
| SourceRuns.CsrcKeeps | jrtplib-3.8.2/src/rtpsources.cpp:339-352 | One contributing source adds one to the difference exactly in the uncounted case |
| SourceRuns.LeftKeeps | jrtplib-3.8.2/src/rtpsources.cpp:878-1258 | What a pass leaves of an entry keeps queue, binding and addresses |
| SourceRuns.OwnIsLeft | jrtplib-3.8.2/src/rtpsources.cpp:892-893 | A pass never takes our own entry |
| SourceTimeouts.PassTimesOut | jrtplib-3.8.2/src/rtpsources.cpp:878-1258 | On every table, in microseconds: a pass takes just the sources, our own never among them, whose BYE or last message is older than the delay asked for, and takes the sender flag and the note from those with too old an RTP packet or note |
| SourceTimeouts.SweptBySource | jrtplib-3.8.2/src/rtpsources.cpp:884-920 | A pass looks at each entry by itself |
| SourceTimeouts.RunStaysClocked | jrtplib-3.8.2/src/rtpsources.cpp:93-1258 | Over every run whose events have normal times, so have the entries |
| RtcpScheduler.RTCPScheduler.constructor | jrtplib-3.8.2/src/rtcpscheduler.cpp:87-106 | A timer before its first call |
| RtcpScheduler.RTCPScheduler.CalculateNextRTCPTime | jrtplib-3.8.2/src/rtcpscheduler.cpp:235-245 | The next time from a fresh reading of the clock |
| TaskScheduler.BasicTaskScheduler.constructor | live/BasicUsageEnvironment/BasicTaskScheduler0.cpp:46-53 | No handlers, nothing handled yet |
| TaskScheduler.BasicTaskScheduler.PastLast | live/BasicUsageEnvironment/BasicTaskScheduler.cpp:110-112 | Whether the socket handled last has a handler, and the iterator past it |
| TaskScheduler.BasicTaskScheduler.Search | live/BasicUsageEnvironment/BasicTaskScheduler.cpp:105-151 | The descriptor that a step runs, from past the last handled and then from the beginning |
| HandlerSet.HandlerSet.constructor | live/BasicUsageEnvironment/BasicTaskScheduler0.cpp:176-179 | An empty ring |
| HandlerSet.HandlerIterator.Reset | live/BasicUsageEnvironment/BasicTaskScheduler0.cpp:231-233 | Back to the first descriptor |
| TaskScheduler.MovedWants | live/BasicUsageEnvironment/BasicTaskScheduler.cpp:212-217 | After a move just the new socket is waited for where the old one was |

## Left out

- RoundTrip.BuildParseRoundTrip: losses are given back modulo 2^24 because the format has only 24 bits; `LossesUnchanged` says when that is no loss.
- DelayQueue.DelayQueue.Synchronize: asks that the time measured is below the sum of the list, since the loop does not end otherwise (`SynchronizeStops`).
- DelayRuns.RunsInDueOrder: is about the queue on values; the heap queue follows it while the run is served (`ServedRun`), which `ServedBeforeEnd` tells beforehand.
- DelayedTasks.DelayedTasks.ScheduleDelayedTask: the token counter belongs to the object, while in the program all queues share one.
- BasicHashTable.BasicHashTable.Add: asks for fewer than 3 * 2^30 associations afterwards; with as many, the shift would become negative.
- ReportBlocks.FillInReportBlocks: the room left in the compound packet is a number of blocks, which `BuilderSessions.AddBlocks` derives from the builder; jitter, last-SR time and delay since it are not in the block.
- InternalSourceData.RTPInternalSourceData.ProcessPacket: jitter and the previous packet's time, timestamp and number, which only jitter uses, are left out.
- SourceStats.FractionFitsByte: asks for fewer than 2^32 packets in the last interval, where the 32-bit counter would come round.
- ReportBlocks.BlockOfRun: asks for numbers and packets below 2^32, where the 32-bit counters would come round.
- Sources.RTPSources.Timeout: who times out is told for times with less than a million microseconds, which all entries have on runs whose events have them (`RunStaysClocked`); so for the other timeouts.
- RtcpScheduler.PacketsAreSpaced: doubles are reals and times whole microseconds without a 32-bit limit; a call that divides by zero is no step of a run.
- SourceState.QueueConserves: packets are values, the number written on arrival being part of the queued value.
- Sources.RTPSources.ProcessRTCPCompoundPacket: takes what the packets' accessors read; sender information and block contents are not stored, only the sign of life.
- Memory managers, out-of-memory branches, destructors and `RTPDEBUG` dumps.
- The external-buffer variant of `InitBuild`, which needs the caller to provide the length that is proved exact, and `AddUnknownPacket`, which is not compiled in.
- Transmitters, raw packets, the choice of own packets, and the RTP header codec: input and output, or easy next to the rest.
- Callbacks of `RTPSources` and what handlers of timers and sockets do: they may re-enter; each operation is one step here.
- Jitter, round-trip time and timestamp-unit estimation: floating point.
- The private SDES item store of a source, and the SSRC collision list.
- Cursor searches of the table for sources with data, which only walk the order.
- Iterating over a `BasicHashTable` while changing it, and its `RemoveNext`.
- Whole report intervals of `RTCPPacketBuilder`: `prevbuildtime` moves between fills, and a second fill can repeat a source.
- Event triggers of the task scheduler, `select` itself and the fd_set size limit.
- Random numbers and the clock are parameters, constrained to their documented range and, where said, to not going back.
- Threads, mutexes and poll loops: every locked operation is one step.
