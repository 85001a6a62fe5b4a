# Verified model of the fpv4mac receive pipeline

This project models the path of a radio frame through fpv4mac and proves what its stages
promise: the `rx.frame` text lines that the receiver prints, the capture command with its two
threads and bounded queue, the `.fpv4cap` file, inspection and replay of such files, and the
WFB bridge, which finds its link, hands frames to an aggregator, counts the RTP packets that
come out and reports its health from a second thread.

| module | models |
|---|---|
| `Numbers`, `Frames` | fixed-width integers, the radio frame, input lines |
| `RtpPackets`, `RtpLoss` | RTP inspection (RFC 3550, sections 5.1 and 5.3.1), the codec hint, loss accounting by SSRC |
| `TextScanning`, `FrameText`, `FrameLines` | searching text, decimal and hexadecimal numbers, the `rx.frame` codec, and its lines character by character |
| `LittleEndian`, `CaptureFile`, `CaptureStreams` | the capture format as a function of its bytes; the writer and reader as they run on a stream |
| `BoundedQueues`, `CaptureProtocol`, `CaptureResults` | the queue, the two interleaved capture threads, and what a run leaves behind as text and bytes |
| `CaptureCommands` | inspection and replay |
| `LinkDiscovery` | routing, discovery and selection of a WFB link |
| `HealthSnapshots`, `ReporterLifecycle` | the metrics shared by the bridge's two threads; the reporter's start and shutdown |

Code that computes a value is a function; code that updates something in place is a class or a
method with loops, proved equal to a function about which the lemmas speak. The three pieces of
code that run on two threads are state machines: every step is one access to shared state, a
schedule is a sequence of steps, and the theorems hold for every schedule. A thread that waits
for a mutex, for a notification or for another thread has no enabled step; spurious wakeups and
timeouts are steps of their own. A stop request is a step that may come at any time. Every reading of a clock is an arbitrary number that is at
least the one read before.

Four findings about the code, each stated as a lemma:

- The gap counter equals the number of lost packets exactly for the streams that `Tidy`
  describes. Never going backwards is sufficient for that but not necessary, and a packet
  that is merely late stays counted (`GapsCountMissing`, `RepeatsAreExactToo`,
  `LatePacketStaysCounted`).
- The magic of a capture file is compared in a zero-filled buffer, so a file of seven bytes
  passes that comparison and is refused only at the next field (`CutHeaderIsRefused`).
- Inspection subtracts unsigned time stamps. The result is right exactly if the last stamp is
  not before the first, which holds for every file that the capture command writes, but not
  for every file that the reader accepts (`DurationExactUnlessBackwards`,
  `BackwardsFileWraps`, `CapturedFilesKeepTime`).
- The bridge's health reports compute their phase and ages from counters and times that suit
  each other under every interleaving, because times are stored before and loaded after the
  counters. Two things that a report prints do not have this property. The RTP counter is
  loaded once more while the report is formatted, so a report can say stalled and count a
  packet stamped at that very time, or show a packet with a null age; count and age
  suit each other exactly if no packet with a later stamp, or for a null age no packet at all,
  was published between the two loads. And Wi-Fi frames are counted before they are stamped, so
  the age of the last frame can be off by any amount, though never by more than one frame (`SnapshotsAreCoherent`, `PrintedCountSuitsExactly`, `StalledCanShowFreshPacket`,
  `NullAgeCanShowPacket`, `WifiTimeLagsByOneFrame`, `WifiAgeCanBeWrong`).

## Model

| member | source | states |
|---|---|---|
| RtpPackets.InspectRtpPacket | gpl/wfb-bridge/protocol.cpp:87-131 | the offset walk is in bounds, never subtracts below zero, and gives exactly the report that `Inspect` defines |
| RtpPackets.DecomposeBuild | gpl/wfb-bridge/protocol.cpp:87-131 | every well-formed version-2 packet (CSRC list, optional extension, payload, optional padding) is recovered whole from its octets |
| RtpPackets.BuildDecompose | gpl/wfb-bridge/protocol.cpp:87-131 | a packet that decomposes is well formed, and its octets are exactly those decomposed |
| RtpPackets.ExtensionInverts | gpl/wfb-bridge/protocol.cpp:98-109 | the extension length in 32-bit words leads exactly to the end of the extension |
| RtpPackets.PaddingExact | gpl/wfb-bridge/protocol.cpp:111-118 | padding that is split off is counted by its last byte, is not empty, and together with the payload loses nothing |
| RtpPackets.DecompositionByOffsets | gpl/wfb-bridge/protocol.cpp:92-119 | the payload offsets exist exactly if the packet decomposes, and then delimit exactly its payload |
| RtpPackets.InspectIsDecomposition | gpl/wfb-bridge/protocol.cpp:87-131 | inspecting a packet reports type, sequence number, SSRC and hint of the decomposed packet, or nothing if there is none |
| RtpPackets.AcceptedExactlyWhenWellFormed | gpl/wfb-bridge/protocol.cpp:87-131 | a packet is accepted if and only if it is the octets of some well-formed packet; that packet is unique and the report is its own |
| RtpPackets.ReportInOctets | gpl/wfb-bridge/protocol.cpp:87-131 | in plain arithmetic on octets: a packet is accepted if and only if two unique offsets delimit its payload behind CSRC words and extension and before the padding; the report gives sequence number and SSRC in network byte order |
| RtpPackets.HintByOctets | gpl/wfb-bridge/protocol.cpp:10-33 | the first two payload octets that mean H.265, and the first octets that mean H.264 otherwise |
| RtpLoss.LiftIsLift | gpl/wfb-bridge/protocol.cpp:143-149 | every stream of 16-bit numbers has a lift to the integers whose steps are the signed differences |
| RtpLoss.LiftIsUnique | gpl/wfb-bridge/protocol.cpp:143-149 | the lift is determined by its first number |
| RtpLoss.GapOfLiftedStep | gpl/wfb-bridge/protocol.cpp:145-148 | the wrapped gap rule counts the numbers jumped over by a forward step of the lift, and nothing for any other step |
| RtpLoss.ArrivalExcess | gpl/wfb-bridge/protocol.cpp:145-149 | one arrival raises the counter by at least what goes missing, and by exactly that if and only if the arrival is tidy |
| RtpLoss.GapsCountMissing | gpl/wfb-bridge/protocol.cpp:143-152 | across any number of wrap-arounds the gap counter is at least the number of packets between the first and the highest that never arrived, with equality if and only if the stream is tidy |
| RtpLoss.ForwardStreamsAreExact | gpl/wfb-bridge/protocol.cpp:143-152 | a stream that never goes backwards is counted exactly |
| RtpLoss.RepeatsAreExactToo | gpl/wfb-bridge/protocol.cpp:143-152 | a stream that goes backwards and is still counted exactly |
| RtpLoss.LatePacketStaysCounted | gpl/wfb-bridge/protocol.cpp:143-152 | a reordered stream without any loss for which the counter stays at one |
| RtpLoss.PacketsAddUp | gpl/wfb-bridge/protocol.cpp:139-152 | the packets of all streams add up to the packets of the mixed stream |
| RtpLoss.BytesAddUp | gpl/wfb-bridge/protocol.cpp:140 | the bytes of all streams add up to the bytes of the mixed stream |
| RtpLoss.GapsAppended | gpl/wfb-bridge/protocol.cpp:143-152 | one more packet changes the gap total only by its gap to the last packet of its own SSRC |
| RtpLoss.GapsBounded | gpl/wfb-bridge/protocol.cpp:143-152 | gaps never exceed 0x7ffe times the packets that are not the first of their SSRC |
| RtpLoss.InterleavingIrrelevant | gpl/wfb-bridge/protocol.cpp:133-152 | every interleaving that keeps the order within each SSRC gives the same packet, byte and gap counts |
| RtpLoss.GapsCoverLosses | gpl/wfb-bridge/protocol.cpp:133-152 | over all streams together the gap counter is at least the number of lost packets, with equality if and only if every single stream is tidy |
| RtpLoss.FirstCodecIsFirst | gpl/wfb-bridge/protocol.cpp:154-157 | the latched codec is the hint of the first packet that has one, and unknown if and only if none has |
| RtpLoss.BytesAreOctets | gpl/wfb-bridge/protocol.cpp:139-140 | the byte count is the number of octets of all accepted packets |
| RtpLoss.LastOfHistory | gpl/wfb-bridge/protocol.cpp:143-152 | the map holds, for exactly the SSRCs seen, the number of the last packet of each |
| RtpLoss.RtpObserver.Observe | gpl/wfb-bridge/protocol.cpp:133-159 | after any packets the counters, the gap total summed over SSRCs, the map of last numbers, the payload type and the latched codec are those of the accepted packets; a rejected packet changes nothing; true is returned exactly when the codec is first known |
| RtpLoss.RtpObserver.Account | gpl/wfb-bridge/protocol.cpp:139-158 | the accounting of an accepted packet keeps every counter equal to what the history determines |
| RtpLoss.RtpObserver.CountGap | gpl/wfb-bridge/protocol.cpp:143-152 | adds the gap to the last number of the same SSRC, if there is one, and remembers the new number |
| RtpLoss.RtpObserver.LatchCodec | gpl/wfb-bridge/protocol.cpp:154-158 | the first hint that names a codec is kept, and only then true is returned |
| TextScanning.FindIsFirst | src/devourer_json.cpp:15-16 | the search returns the first occurrence, and nothing only if there is none |
| TextScanning.FromCharsReadsDecimal | src/devourer_json.cpp:40-43 | every signed 64-bit number is read back from its decimal text, whatever non-digit follows it |
| TextScanning.FromCharsExactly | src/devourer_json.cpp:40-47 | a number is read from an optional minus sign and the digits up to the first other character, and refused if there is no digit or it is no signed 64-bit number |
| TextScanning.DecimalValueByDigits | src/devourer_json.cpp:43 | each digit counts ten times the digits before it plus its place among 0 to 9 |
| TextScanning.DecimalByDigits | src/devourer_json.cpp:174-184 | numbers are printed with the digits 0 to 9, the last being the remainder by ten, and a minus sign if negative |
| TextScanning.HexRoundTrip | src/devourer_json.cpp:97-122 | decoding undoes hexadecimal encoding |
| TextScanning.HexAccepts | src/devourer_json.cpp:97-112 | decoding succeeds if and only if the text is an even number of hexadecimal digits, and gives half as many bytes |
| TextScanning.HexTextByTable | src/devourer_json.cpp:114-122 | byte i is written at 2i and 2i+1 as the lower-case digits of its high and low half |
| TextScanning.HexBytesByPairs | src/devourer_json.cpp:103-110 | byte i is read from the digits at 2i and 2i+1, the high half first |
| TextScanning.NibblesByTable | src/devourer_json.cpp:84-95 | exactly the digits of both cases stand for their values |
| TextScanning.DecodeHex | src/devourer_json.cpp:97-112 | the decoding loop gives exactly the bytes spelt out, or nothing |
| TextScanning.EncodeHex | src/devourer_json.cpp:114-122 | the loop that fills the buffer gives the hexadecimal text of the bytes |
| FrameText.NoOtherNeedle | src/devourer_json.cpp:13-20 | a quoted key occurs neither inside another member, nor inside its value, nor across the boundary to the next |
| FrameText.SearchPasses | src/devourer_json.cpp:13-20 | a keyed search passes a member with another key and continues behind it |
| FrameText.SearchHits | src/devourer_json.cpp:13-20 | a keyed search stops at the member with its key |
| FrameText.LookupInMembers | src/devourer_json.cpp:13-20 | in a list of members a search finds the first one with its key, wherever it stands |
| FrameText.LookupInLine | src/devourer_json.cpp:13-20 | the event tag in front of the members never catches the search |
| FrameText.PairReadBack | src/devourer_json.cpp:51-82 | a printed pair of signed bytes is read back |
| FrameText.NumberReadBack | src/devourer_json.cpp:34-49 | a printed number within range is read back |
| FrameText.ParsesWhatItCarries | src/devourer_json.cpp:130-170 | a line whose members carry the values of a frame, in any order and among others, parses to that frame without its capture time, or is refused for its size |
| FrameText.TextRoundTrip | src/devourer_json.cpp:130-188 | parsing the line written for a frame gives the frame with capture time zero if its body has at most 16384 bytes, and the size error otherwise |
| FrameText.ReserializedLineMeansTheSame | src/devourer_json.cpp:130-188 | for every accepted line, writing its frame and parsing again gives the same frame |
| FrameText.MemberOrderIrrelevant | src/devourer_json.cpp:13-82 | every permutation of the written members parses like the original line |
| FrameText.TrimOpeningInPlace | src/devourer_json.cpp:62-67 | the loop removes exactly the leading brackets and white space |
| FrameText.ParseIntegerPair | src/devourer_json.cpp:51-82 | reading a pair step by step agrees with its definition, with every slice in bounds |
| FrameText.ParseDevourerFrame | src/devourer_json.cpp:130-170 | the parser that fills a frame member by member gives the frame, or the error, that the line means |
| FrameText.ReadLine | src/devourer_json.cpp:126-170 | a line is passed over, counted malformed, or turned into its frame |
| FrameLines.SerializedText | src/devourer_json.cpp:172-188 | the printed line, spelt out: every name, the order, the brackets and quotes, and the length, which is that of the body plus 24 |
| FrameLines.NumbersAsSaid | src/devourer_json.cpp:161-164 | in every accepted line a number given for a numeric field is its value if within the field's range; out of range, missing or no number, the field is zero |
| FrameLines.FlagsAsSaid | src/devourer_json.cpp:165-168 | a flag is set by exactly the numbers from 1 to 255 |
| FrameLines.UnfitLines | src/devourer_json.cpp:126-149 | a line is passed over if and only if it does not start with the tag; an accepted line mentions all five required names |
| FrameLines.OpeningTrimmed | src/devourer_json.cpp:62-67 | exactly the opening brackets and the six white-space characters in front of a number are removed |
| FrameLines.PairAsSaid | src/devourer_json.cpp:51-82 | a pair of numbers, with or without white space, is read if and only if both are signed bytes |
| FrameLines.AcceptedExactly | src/devourer_json.cpp:137-170 | a line that gives the five required members is malformed, too large or accepted with these values exactly as its hexadecimal text, address length, readings and body size say |
| LittleEndian.FromLittleInverts | src/capture.cpp:11-29 | reading undoes little-endian writing for every value that fits the width |
| LittleEndian.LittleInverts | src/capture.cpp:11-29 | writing what was read reproduces the bytes |
| CaptureFile.ReadBack | src/capture.cpp:39-136 | every written file opens and reads back as the frames written, then the end |
| CaptureFile.HeaderInNumbers | src/capture.cpp:42-45 | the sixteen bytes of the header |
| CaptureFile.OpensExactly | src/capture.cpp:90-100 | a file opens if and only if it has sixteen bytes and the first twelve are those of the header |
| CaptureFile.OpenErrorsExactly | src/capture.cpp:92-100 | of at least sixteen bytes, those with the magic have an unsupported version and the others are no capture |
| CaptureFile.RecordNumbers | src/capture.cpp:54-57 | time, tsfl, sequence and rate stand at the start of a record, lowest byte first |
| CaptureFile.RecordLayout | src/capture.cpp:58-78 | the other bytes of a record: bandwidth, the four flag bits, the readings in two's complement, address, body size and body |
| CaptureFile.OversizedRecordIsRefused | src/capture.cpp:128-131 | a record whose size field exceeds 16384 is refused, whatever follows |
| CaptureFile.RecordReadBack | src/capture.cpp:50-136 | a record reads as its frame whatever stands before and behind it |
| CaptureFile.CutRecordIsBroken | src/capture.cpp:18-29 | a record that is cut short anywhere is an error |
| CaptureFile.CutHeaderIsRefused | src/capture.cpp:88-101 | every cut inside the header is refused at opening, the seven-byte cut only after the magic comparison has passed |
| CaptureFile.WholeFramesIsLargest | src/capture.cpp:103-136 | the number of whole frames within a cut is the largest whose records fit |
| CaptureFile.CutFileReadsBack | src/capture.cpp:103-136 | any other cut yields exactly the frames wholly within it, and then the end if and only if it is on a record boundary |
| CaptureFile.RecordsRewritten | src/capture.cpp:50-136 | rewriting records that were read changes only their flags bytes |
| CaptureFile.CanonicalForm | src/capture.cpp:42-134 | every file that reads to its end is reproduced byte for byte, apart from the reserved header word and the top four bits of each flags byte |
| CaptureStreams.CaptureWriter.constructor | src/capture.cpp:39-48 | a new file is an empty capture |
| CaptureStreams.CaptureWriter.WriteUnsigned | src/capture.cpp:11-16 | the loop appends the little-endian bytes of its value |
| CaptureStreams.CaptureWriter.Write | src/capture.cpp:50-81 | the stream stays the file of the frames written; a frame over 16 KiB is refused and leaves no trace |
| CaptureStreams.CaptureReader.Get | src/capture.cpp:22-25 | one byte, or the end with the failure noted; a failed stream does not move |
| CaptureStreams.CaptureReader.Read | src/capture.cpp:91-91 | too few bytes leave the fail flag set, and every later access fails |
| CaptureStreams.CaptureReader.ReadUnsigned | src/capture.cpp:18-29 | the accumulating loop gives the little-endian value, or fails if a byte is missing or the stream had failed before |
| CaptureStreams.CaptureReader.ReadHeader | src/capture.cpp:88-101 | opening fails with exactly the error that the bytes call for |
| CaptureStreams.CaptureReader.Next | src/capture.cpp:103-136 | each call gives the frame, the end or the error that the file holds at the cursor, although a short read of the address shows only at the next access |
| BoundedQueues.BoundedQueue.TryPush | include/fpv4mac/bounded_queue.hpp:17-25 | a value is accepted if and only if the queue is not closed and holds fewer than its capacity, and is then appended; otherwise nothing changes |
| BoundedQueues.BoundedQueue.Take | include/fpv4mac/bounded_queue.hpp:30-35 | the oldest value is taken, or nothing exactly if the queue is closed and drained |
| BoundedQueues.BoundedQueue.Close | include/fpv4mac/bounded_queue.hpp:38-42 | closing keeps what is queued |
| CaptureProtocol.StepInv | src/capture_commands.cpp:119-153 | every step of either thread keeps mutual exclusion, the counters, the order of frames, the wakeup and shutdown conditions, the size limit and the time order |
| CaptureProtocol.RunInv | src/capture_commands.cpp:105-153 | every reachable state, under every schedule and stop request, satisfies that invariant |
| CaptureProtocol.EventsConserved | src/capture_commands.cpp:119-151 | at every step each counted event is malformed, dropped, written, queued, in the consumer's hand or in the producer's; written, in hand and queued frames together are the accepted ones in arrival order |
| CaptureProtocol.RefusedExactlyWhenFull | include/fpv4mac/bounded_queue.hpp:19-21 | in every reachable state a push is refused if and only if the queue is full at that step |
| CaptureProtocol.DroppedOnlyBehindFullQueue | src/capture_commands.cpp:136-138 | in every run the queue never holds more than its configured capacity, and frames are only dropped after as many have been accepted as that, so none if there are no more frame events |
| CaptureProtocol.FrameEventsAppended | src/capture_commands.cpp:121-125 | every line that is a frame event counts as one, parsed or not, and no other line does |
| CaptureProtocol.TimesAreReadings | src/capture_commands.cpp:132-136 | in every run the times of all stamped frames are the clock readings of their stamping steps, one each and in order |
| CaptureProtocol.StopEndsWithinOneFrame | src/capture_commands.cpp:139-141 | after a stop request at most one more frame is accepted or dropped |
| CaptureProtocol.StopWaitsForFrame | src/capture_commands.cpp:121-141 | in every run a stop request takes effect only behind a frame that parsed |
| CaptureProtocol.NoLostWakeup | include/fpv4mac/bounded_queue.hpp:17-42 | in every reachable state a consumer that sleeps without a notification on its way faces an empty queue that is not closed |
| CaptureProtocol.CompletionAccounts | src/capture_commands.cpp:152-157 | at completion the queue is drained, frames, malformed and dropped add up to seen, and the exit status is success if and only if every event seen is in the file |
| CaptureProtocol.NeverStuck | src/capture_commands.cpp:119-153 | until both threads are done one of them can step |
| CaptureProtocol.StepLowersRank | src/capture_commands.cpp:119-153 | every step other than a spurious wakeup lowers a rank |
| CaptureProtocol.RunsAreBounded | src/capture_commands.cpp:119-153 | no run is longer than the rank of its start plus four for each spurious wakeup |
| CaptureProtocol.EveryRunCanFinish | src/capture_commands.cpp:119-153 | every run, however far it has got, can be continued until both threads are done |
| CaptureResults.SerializeIsOneLine | src/capture_commands.cpp:149 | a printed frame is one non-empty line |
| CaptureResults.GetLinesSplits | src/capture_commands.cpp:121 | the lines read hold no newline and make up the text, but for a missing newline at its end |
| CaptureResults.LinesOfTranscript | src/capture_commands.cpp:121-149 | reading printed output by lines gives back the printed frames' lines |
| CaptureResults.ClassifiedIsSound | src/capture_commands.cpp:122-131 | whatever the input text, accepted frames are within the size limit and not yet stamped |
| CaptureResults.WriterNeverRefuses | src/capture_commands.cpp:126-147 | whatever the input text, no accepted frame trips the writer's size check, in any reachable state |
| CaptureResults.LiveOutputEqualsReplay | src/capture_commands.cpp:119-225 | for every input and schedule of a finished run with passthrough: the file reads back whole, replay prints exactly the text printed live, and its lines parse to the frames of the file in order, with capture time zero |
| CaptureResults.ChainedCaptures | src/capture_commands.cpp:105-158 | a second capture that reads such output to its end and succeeds holds the same frames, restamped |
| CaptureCommands.Replay | src/capture_commands.cpp:200-225 | prints exactly the frames that can be read, reports the error that ends the file if one does, and in real time sleeps for the rises between non-zero stamps |
| CaptureCommands.PausesAppended | src/capture_commands.cpp:217-221 | before each frame real-time replay sleeps for the rise from the time before, if that is not zero and there is a rise |
| CaptureCommands.ReplayKeepsTime | src/capture_commands.cpp:215-223 | for stamps that never fall, the sleeps add up to the last stamp minus the first non-zero one |
| CaptureCommands.Inspect | src/capture_commands.cpp:160-198 | the totals and the duration are those of the file's frames, unless the file breaks off |
| CaptureCommands.AddUp | src/capture_commands.cpp:171-190 | the loop leaves the totals, the first and the last stamp of the frames in the file |
| CaptureCommands.SummaryAddsUp | src/capture_commands.cpp:171-190 | the kinds partition the frames, and header, records and body bytes account for the whole file |
| CaptureCommands.CountsByFirstByte | src/capture_commands.cpp:178-189 | data and session packets are counted by the WFB prefix and a first body byte of 1 or 2, and frames with a checksum error exactly |
| CaptureCommands.SummaryGivesFileSize | src/capture_commands.cpp:171-197 | the size of every file that reads to its end follows from the frames and bytes that inspection reports |
| CaptureCommands.DurationExactUnlessBackwards | src/capture_commands.cpp:191 | the unsigned subtraction is exact if and only if the last stamp is not before the first |
| CaptureCommands.BackwardsFileWraps | src/capture_commands.cpp:191 | a readable file of two frames on which the subtraction wraps |
| CaptureCommands.CapturedFilesKeepTime | src/capture_commands.cpp:132-136 | every file that a capture run leaves is ordered by time, so replay keeps its time and inspection does not wrap |
| LinkDiscovery.IdentityInvertsSource | gpl/wfb-bridge/protocol.cpp:37-52 | a source address has a link and a port if and only if it is the one address that encodes them |
| LinkDiscovery.IdentityInOctets | gpl/wfb-bridge/protocol.cpp:37-52 | in plain arithmetic: the channel is read from the last four octets of an address with the prefix 57:42, high octet first; its low octet is the port and the rest the link |
| LinkDiscovery.SourceInOctets | gpl/wfb-bridge/protocol.cpp:37-52 | the six octets of the address of a link and a port |
| LinkDiscovery.SentOnLink | gpl/wfb-bridge/main.cpp:516-529 | a line counts as sent on a link and port if and only if it parses, is longer than its checksum and comes from their address |
| LinkDiscovery.EventsAddUp | gpl/wfb-bridge/main.cpp:516-570 | in both modes, frame events are malformed, filtered, dropped at the candidate limit or handed over, and add up; malformed and Wi-Fi frames are counted exactly |
| LinkDiscovery.ConfiguredStaysSelected | gpl/wfb-bridge/main.cpp:487-495 | a configured link is selected from the start, for good, and reported once |
| LinkDiscovery.ConfiguredHandsItsChannel | gpl/wfb-bridge/main.cpp:487-547 | with a configured link the aggregator is handed exactly the frames of its channel, in order |
| LinkDiscovery.AcceptAnyHandsEverything | gpl/wfb-bridge/main.cpp:538-547 | with a configured link that accepts any channel the aggregator is handed every sent frame |
| LinkDiscovery.DiscoveryIsSafe | gpl/wfb-bridge/main.cpp:533-571 | at every moment of every discovery run: at most eight candidates, all on the configured port and unauthenticated; a selected link has authenticated, is reported once, and leaves no candidates |
| LinkDiscovery.AuthenticationSelects | gpl/wfb-bridge/main.cpp:565-571 | before selection, in every discovery run, a channel is selected by the very frame with which its aggregator gains a session, and by nothing else |
| LinkDiscovery.FilteredExactly | gpl/wfb-bridge/main.cpp:533-554 | in every run of either mode, which sent frames are filtered; with a link, every other frame is handed to its aggregator |
| LinkDiscovery.CandidatesAdmittedBySession | gpl/wfb-bridge/main.cpp:549-565 | every candidate was admitted by a session packet of its channel and has been handed everything sent on it since |
| LinkDiscovery.SelectionIsFinal | gpl/wfb-bridge/main.cpp:537-570 | a selection is never undone, changed or repeated |
| LinkDiscovery.RefusedOnlyWhenFull | gpl/wfb-bridge/main.cpp:549-565 | in every discovery run without a selection, a session packet on the port is handed over, unless eight other channels, each admitted by its own session packet, hold all slots; then only two counters change |
| LinkDiscovery.CandidatesStay | gpl/wfb-bridge/main.cpp:549-570 | over every continuation of a run, channels keep their slots for as long as no link is selected |
| LinkDiscovery.FromFirstSessionIsSuffix | gpl/wfb-bridge/main.cpp:551-554 | the frames from the first session packet on are the suffix that starts there |
| LinkDiscovery.DiscoveryRefinesConfiguration | gpl/wfb-bridge/main.cpp:487-571 | the link that discovery selects has been handed exactly the suffix, from its first session packet on, of what a bridge configured for that link is handed on the same input |
| LinkDiscovery.Bridge.constructor | gpl/wfb-bridge/main.cpp:487-495 | the bridge starts with its configured link selected and reported, or with none |
| LinkDiscovery.Bridge.Take | gpl/wfb-bridge/main.cpp:518-531 | one line changes the bridge as the step function says, counters and routing included |
| LinkDiscovery.Bridge.Route | gpl/wfb-bridge/main.cpp:533-570 | the order of checks from port to selection gives the routing function's state |
| LinkDiscovery.Bridge.Serve | gpl/wfb-bridge/main.cpp:498-571 | after any lines the bridge is in the state about which the run lemmas speak |
| HealthSnapshots.StepInv | gpl/wfb-bridge/main.cpp:283-426 | every store of the main thread and every load of the reporter, the second load of the RTP counter included, keeps counters, times and stamps consistent |
| HealthSnapshots.LaterTimeIsCoherent | gpl/wfb-bridge/main.cpp:378-385 | a time loaded after a counter is that of the packet counted or of a later one |
| HealthSnapshots.SnapshotsAreCoherent | gpl/wfb-bridge/main.cpp:376-387 | under every interleaving, if the phase computation counted k RTP packets, the time it used is that of the k-th or of a later one; likewise for k datagrams and the age printed with them |
| HealthSnapshots.StalledIsTrue | gpl/wfb-bridge/main.cpp:386-387 | the phase is stalled only if the packet that the phase computation counted is more than three seconds older than the snapshot |
| HealthSnapshots.PhaseByCounts | gpl/wfb-bridge/protocol.cpp:59-73 | the five phases by the values loaded, stalled beginning after 3000 ms |
| HealthSnapshots.PhaseTellsStage | gpl/wfb-bridge/main.cpp:376-387 | in every report of every run each counter lies between its values at the start and at the end of the report, so a phase means that its stage had been reached at the end and no later one at the start |
| HealthSnapshots.MetricsExactWhenQuiet | gpl/wfb-bridge/main.cpp:283-334 | whenever the main thread is not with the aggregator, in every run, all counters and times are up to date |
| HealthSnapshots.PrintedCountSuitsExactly | gpl/wfb-bridge/main.cpp:382-418 | the RTP count printed is never below the one the phase was computed from; it suits the time and the age if and only if no packet with a later stamp was published between the two loads (for a null age: no packet at all) |
| HealthSnapshots.StalledCanShowFreshPacket | gpl/wfb-bridge/main.cpp:382-418 | for every age over three seconds, a run whose report says stalled with that age and counts a packet stamped at the time of the report |
| HealthSnapshots.NullAgeCanShowPacket | gpl/wfb-bridge/main.cpp:382-418 | a run whose report says authenticated with a null age and counts a packet |
| HealthSnapshots.StagesNeverGoBack | gpl/wfb-bridge/protocol.cpp:59-73 | the phases of one reporter's snapshots never go back, receiving and stalled being the last stage |
| HealthSnapshots.WifiTimeMayLag | gpl/wfb-bridge/main.cpp:531-532 | at its load, the time of the last frame has been stored for the frame counted if and only if the load does not fall between the two stores; otherwise it is that of the frame before |
| HealthSnapshots.WifiTimeLagsByOneFrame | gpl/wfb-bridge/main.cpp:376-393 | in every report of every run the time is at least that of the frame before the one counted, and it suits the frame counted if and only if that frame had been stored at the load, or was later stamped with the same time |
| HealthSnapshots.WifiAgeCanBeWrong | gpl/wfb-bridge/main.cpp:531-532 | for every duration, a run that reports it as the age of a frame stamped only afterwards |
| ReporterLifecycle.StepInv | gpl/wfb-bridge/main.cpp:428-459 | every step keeps mutual exclusion, the shutdown order and the bound on late reports |
| ReporterLifecycle.AtMostOneLateReport | gpl/wfb-bridge/main.cpp:435-448 | in every run the worker makes at most one report after shutdown has been signalled |
| ReporterLifecycle.LateReportHappens | gpl/wfb-bridge/main.cpp:435-448 | a run in which that one late report is made |
| ReporterLifecycle.EveryTimeoutReports | gpl/wfb-bridge/main.cpp:437-446 | before shutdown every timeout gives exactly one report, and a spurious wakeup or any other step gives none |
| ReporterLifecycle.WorkerWaitsAgain | gpl/wfb-bridge/main.cpp:437-446 | while the owner serves, a running worker makes the report that is due and comes to its next wait by its own steps |
| ReporterLifecycle.NoWorkerNoReport | gpl/wfb-bridge/main.cpp:434 | with an interval of zero no run ever has a running worker or a report |
| ReporterLifecycle.StepLowersRank | gpl/wfb-bridge/main.cpp:450-459 | once shutdown has been signalled every step brings the end nearer, timeouts and spurious wakeups included |
| ReporterLifecycle.NeverStuck | gpl/wfb-bridge/main.cpp:435-459 | until the reporter is destroyed a thread can step, without waiting for a timeout |
| ReporterLifecycle.JoinReturns | gpl/wfb-bridge/main.cpp:450-459 | after the signal no run takes more than seven steps, and one that cannot go on has joined the worker |

## Left out

- The capture threads, the metrics and the reporter are state machines over values rather than loops over shared objects: their interleaving is what is modelled. Their sequential parts (queue operations, writer, parser) are also given as methods.
- Fairness of the mutexes: that a shutdown request is eventually signalled while the worker keeps taking the mutex is not proved; what follows the signal is.
- Failing devices: opening, writing and flushing files never fail. Streams are byte sequences.
- Error texts, the printed summaries, the media and SDP events and the atomic rename of the SDP file.
- Sockets, `poll`, signals and standard streams; a stop request is a step that may come at any time, and the bridge's run is any sequence of lines that it reads.
- Option parsing, frequencies, packet type names, device discovery and the device catalogue.
- WFB-NG's aggregator, its cryptography and error correction: an aggregator is an oracle whose session count may grow by any number when it is handed a frame, and which emits payloads only once it has a session. That it counts one outgoing datagram for each payload is assumed for the UDP part of the health snapshots. Its header with the session packet type is not part of the repository; the value is the one in include/fpv4mac/radio_frame.hpp:13.
- The antenna, noise and frequency values that accompany a frame to the aggregator.
- Wrap-around of the 64-bit counters: they are naturals. Time stamps in files have 64 bits; the bridge's clock is a natural.
- The quality of the codec hint: it is the function that the observer latches, with no statement about real video.
- The report that the bridge's main thread makes when it ends: one reporter, the worker, is interleaved with the main thread's stores.
- The further health metrics (errors, bytes, sequence gaps, recovered packets, codec, link) take no part in the phase or the ages and are not modelled. They too are loaded while a report is formatted, in an order that the language leaves open.
