# waiwaiDPI, modelled and proved in Dafny

waiwaiDPI captures the outgoing TCP packets of a connection, holds them until it recognises a TLS
ClientHello or an HTTP request, finds the host name, and then splits, re-segments, overlaps, decoys
and reverses the packets before they leave. The destination must still receive the same byte
stream, and the kernel must get one verdict for every packet it queued. This project models that
core and proves both.

## How the model is built

| file | models |
|---|---|
| `base.dfy`, `serial.dfy`, `sorting.dfy`, `searching.dfy` | fixed-width numbers, 32-bit serial arithmetic, `std::stable_sort`, substring search |
| `packet.dfy`, `checksum.dfy` | IPv4/TCP packets with their wire bytes, the Internet checksum |
| `reassembly.dfy`, `splitting.dfy`, `tiling.dfy`, `ranges.dfy` | `concat`, `concat_sorted`, offset search, splitting, what a split does to the stream, when it goes wrong |
| `segmentation.dfy`, `optionlists.dfy` | re-segmentation, the per-packet passes, TCP option lists |
| `markers.dfy`, `hello.dfy` | the ClientHello and HTTP marker parsers, serializers they invert |
| `classify.dfy`, `recognition.dfy` | the classifiers and their ordered combination, what they recognise |
| `modifiers.dfy`, `rewriter.dfy` | Splitter, Disorder and the pipeline: specifications, and the methods that edit the packet vector in place |
| `stream.dfy`, `fitness.dfy`, `health.dfy` | the stream is kept, when the pipeline faults, verdict duties and packet health |
| `edits.dfy`, `headers.dfy`, `hostcuts.dfy` | what a modifier does field by field, which headers stay, where splits land in the bytes |
| `verdicts.dfy`, `delivery.dfy`, `cuts.dfy`, `torn.dfy`, `samples.dfy` | what becomes of accept verdicts, what really leaves the host, when that is the captured stream, a run in which it is not |
| `overlap.dfy`, `disorder.dfy`, `overlapfaults.dfy` | sequence overlap: what it shows, the disorder modifier's, when it faults |
| `conntrack.dfy`, `lifecycle.dfy`, `buffers.dfy` | connection state, its runs, the reassembly buffer |
| `ledger.dfy`, `accounts.dfy`, `inorder.dfy`, `losses.dfy`, `progress.dfy`, `engine.dfy` | the packet callback and the sweep as a step relation, the verdict balance over all runs, when a run loses packets or faults, and the classes that refine the steps |
| `wires.dfy` | delivery over whole runs |

Code that edits packets, connections or the table in place is a class or a method with a `modifies`
clause whose postcondition equates the new state with a specification function of the old one; the
theorems are about those functions. A TCP header is a record; `Packets.ParseOfWire` and
`Packets.WireOfParse` tie the record to the bytes on the wire in both directions. `Outcome.Fault`
stands for every way the C++ code leaves its contract: reading outside a buffer, dereferencing an
end iterator, an uncaught exception, a failed assertion, a loop that never ends. It also stands for one
case in which the C++ code goes on: a timestamp option cut off by the end of the option list, whose value
`timestamp_val_offset` then writes over the first payload bytes. Sequence numbers
are numbers below 2^32 with explicit wrap-around, `size_t` arithmetic on positions wraps at 2^64, and the
length field keeps 16 bits.

Statements about the stream assume a window: all offsets lie within 2^31 of one origin. Outside it
the comparator is not transitive (`Serial.BeforeCycle`).

## What the code does that its names do not say

- `parse_mss_opt` returns `false` where its type is an optional number, so a SYN without options, or with
  options that end in a no-op and lack the MSS option, sets the MSS to 0 (`OptionLists.MssMissing`).
- The splitter subtracts the size of a pointer where the disorder modifier subtracts the size of the TCP
  header; its bound is 12 bytes tighter (`OverlapHidden.WidenedFitsMss`).
- The disorder overlap is compared with the front packet, not with the first original. With a decoy in front,
  an overlap longer than the first original but shorter than the decoy destroys the stream
  (`DisorderHidden.DisorderOverlapInvisible`, `DisorderHidden.DecoyOpensOverlap`).
- The disorder overlap's `sniext` branch tests `hostend` and then throws on HTTP
  (`OverlapFaults.LengthFaultsExactly`).
- `split_http` and `split_tls` test for an index of -1 that the search never returns
  (`Ranges.SplitFaultsExactly`).
- A retransmission while a connection reassembles gets no verdict, and a failed classification forgets the
  held packets before the loop that would release them (`Losses.LosesExactly`).
- `badchecksum` stores the low half of a byte-swapped 32-bit number. On a little-endian host that is always
  zero, so the random byte does not matter.
- A sequence offset on originals moves the packets the program sends, but not those it leaves to the kernel
  (`Torn.MovedNumbersTearTheStream`; `Cuts.DeliveredExactly` says when that matters).
- Classification is not a property of the first bytes: more of them can turn a request into a TLS record
  (`Classify.ProtocolCanChange`, `Classify.RequestKeptExactly`). The program asks no more once it has decided.

## Model

| member | source | states |
|---|---|---|
| Serial.DistAdd | src/modify/algorithms/common.hpp:58 | moving ahead by n moves the unsigned distance from any origin by n as long as nothing laps the circle |
| Serial.DistShift | src/modify/algorithms/common.hpp:58 | unsigned distances do not see a common shift of both ends modulo 2^32 |
| Serial.BeforeInWindow | src/modify/algorithms/common.hpp:48-50 | inside a half-circle window the signed comparator is exactly the order of the offsets, hence a strict weak order (section 3.2 of RFC 1982) |
| Serial.BeforeCycle | src/modify/algorithms/common.hpp:48-50 | without the window it is not transitive: three concrete numbers precede each other in a cycle |
| Sorting.SortMembers | src/modify/algorithms/common.hpp:58 | the stable sort returns a permutation |
| Sorting.SortAscending | src/modify/algorithms/common.hpp:58 | and, under a comparator that follows a key, an ascending one |
| Packets.ParseOfWire | src/net/packet_view.cpp:115-144 | writing a packet record out and parsing the bytes gives the record back, and the byte count is header lengths plus payload |
| Packets.WireOfParse | src/net/packet_view.cpp:115-144 | parsing loses nothing: the parsed record writes out as the captured bytes, whatever they are |
| Packets.WireLayout | src/net/packet_view.cpp:77-105 | on the wire every header field stands where the protocols put it (section 3.1 of RFC 791, section 3.1 of RFC 9293), counted from the start of its header |
| Checksum.AddBytes | src/net/checksum.cpp:43-54 | the accumulation loop adds the padded big-endian word sum to the 32-bit accumulator |
| Checksum.FoldCarries | src/net/checksum.cpp:60 | the folding loop ends and computes the fold |
| Checksum.FoldIsResidue | src/net/checksum.cpp:60 | folding keeps the residue modulo 65535, with 65535 standing for zero on positive sums (section 2 of RFC 1071) |
| Checksum.AccumulatorFits | src/net/checksum.cpp:41-58 | for any packet up to 65535 bytes the 32-bit accumulator never overflows |
| Checksum.AddSegment | src/net/checksum.cpp:34-58 | adding pseudo header, header and payload one after the other gives the sum of the concatenated segment |
| Checksum.CalcTcpChecksum | src/net/checksum.cpp:20-63 | the method returns the complement of the folded segment sum |
| Checksum.CalcPacketChecksum | src/net/checksum.cpp:9-18 | the method zeroes the field and stores the checksum, changing nothing else |
| Checksum.VerifiesExactly | src/net/checksum.cpp:20-63 | a receiver that sums the bytes of the packet, addresses, protocol 6, segment length and segment, accepts a stored value if and only if it is the computed one up to the two zeros of one's complement |
| Checksum.ReceiverSums | src/net/checksum.cpp:30-48 | what a receiver sums over the wire bytes, taking the header length from the first byte and the addresses from bytes 12 to 19, is what the program sums |
| Checksum.ChecksummedVerifies | src/net/checksum.cpp:9-18 | the wire bytes of a checksummed packet pass that test (section 3.1 of RFC 9293) |
| Checksum.ChecksummedIdempotent | src/net/checksum.cpp:13-14 | recomputing gives the same packet whatever the field held |
| Reassembly.Concat | src/modify/algorithms/common.hpp:18-75 | the three loops compute the base, order and merge of the specification |
| Reassembly.FoldBaseIsLowest | src/modify/algorithms/common.hpp:51-56 | the left-to-right scan finds the lowest sequence number of the window |
| Reassembly.MergeBytes | src/modify/algorithms/common.hpp:63-72 | if the segments agree with a stream from some position on, so does what is merged, which never outgrows the stream, whatever foreign bytes lie below that position |
| Reassembly.ReassembleReach | src/modify/algorithms/common.hpp:48-74 | reassembly reaches from the lowest segment to the first uncovered position, even when overlapping segments disagree about their bytes |
| Reassembly.ReassembleIsGapFreePrefix | src/modify/algorithms/common.hpp:48-74 | for slices of one stream in any order, with duplicates, overlaps, holes and wraps, the result is exactly the stream from the lowest segment to the first missing byte |
| Reassembly.ReassembleOrderFree | src/modify/algorithms/common.hpp:58-72 | two lists with the same segments, in any order and any multiplicity, reassemble to the same bytes |
| Reassembly.SameExtentSameBytes | src/modify/algorithms/common.hpp:48-74 | segmentations that cover the same positions of one stream reassemble alike |
| Reassembly.ReassembleTranslates | src/modify/algorithms/common.hpp:48-72 | adding any constant to all sequence numbers modulo 2^32 changes no byte; no window and no consistency is assumed |
| Reassembly.ConcatSorted | src/modify/algorithms/common.hpp:77-95 | the loop concatenates the payloads in list order |
| Reassembly.ContiguousReassembles | src/modify/algorithms/common.hpp:77-95 | on packets that follow one another, across the 2^32 wrap too, plain concatenation and reassembly agree |
| Splitting.FindPacket | src/modify/algorithms/split.hpp:22-49 | the walk over sorted iterators refines the specification, `end()` being `None` |
| Splitting.SplitAndInsert | src/modify/algorithms/split.hpp:51-94 | in place: the packet is shrunk, the rest inserted behind it, nothing else touched |
| Splitting.SplitSegment | src/modify/algorithms/split.hpp:55-83 | the halves carry the two parts of the payload from s and s + at modulo 2^32 and stay fake or original together |
| Splitting.SplitKeepsExtent | src/modify/algorithms/split.hpp:51-94 | a split anywhere, fakes present or not, keeps the originals slices of the stream and covers the same positions |
| Tiling.FindIsHolder | src/modify/algorithms/split.hpp:22-49 | on packets that tile a stream, in any list order and with empty packets among them, the search for k returns the packet and index that hold byte k |
| Tiling.SplitRefinesCut | src/modify/algorithms/split.hpp:22-94 | the following split adds exactly one packet, puts a boundary at offset k, leaves all other packets untouched and still tiles the stream, also when the number wraps inside the packet |
| Tiling.CutAllRefines | src/modify/splitter.cpp:54-62 | after any list of splits every requested offset is a packet boundary, earlier boundaries remain and the packets tile the same stream |
| Tiling.TilesReassemble | src/modify/algorithms/common.hpp:48-74 | a tiling reassembles to the whole stream |
| Ranges.FindsExactly | src/modify/algorithms/split.hpp:42-48 | on any list of packets the search succeeds if and only if the offset is below the total payload |
| Ranges.SplitFaultsExactly | src/modify/algorithms/split.hpp:122-133 | a split dereferences the end iterator if and only if the payload is HTTP or TLS and its position resolves behind the last byte; it never changes the total payload |
| Ranges.SplitsFaultExactly | src/modify/splitter.cpp:54-62 | a list of splits goes wrong if and only if one of its positions does, measured before the first split |
| Ranges.HostSplitFinds | src/modify/algorithms/split.hpp:103-134 | a bare hoststart or hostmid split of a non-empty host name always finds a packet, on any list of packets |
| Ranges.HostEndSplitFinds | src/modify/algorithms/split.hpp:136-170 | a bare hostend split always works for HTTP and for TLS exactly when a byte follows the name |
| Ranges.ReassembleBound | src/modify/algorithms/common.hpp:52-60 | what reassembles is never longer than all payloads together |
| Segmentation.TimestampValOffset | src/modify/algorithms/common.cpp:9-52 | the option walk in place refines the specification wherever it ends and stays inside its bytes |
| Segmentation.ShiftTimestampChanges | src/modify/algorithms/common.cpp:40-48 | one shift changes nothing, or exactly the eight value bytes, each number by the offset modulo 2^32 |
| Segmentation.ShiftTimestampUndo | src/modify/algorithms/common.cpp:9-52 | shifting by d and then by -d restores every option byte |
| Segmentation.RestampUndo | src/modify/algorithms/common.hpp:106-117 | and on a correctly checksummed packet every byte of the packet |
| Segmentation.SpoiledVerifiesExactly | src/modify/algorithms/common.hpp:130-142 | a spoiled checksum is still accepted exactly when the right one is a zero |
| Segmentation.MakeChunk | src/modify/algorithms/common.cpp:65-74 | one chunk: the original's headers around the data, no verdict duty, correct checksum |
| Headers.CopiesKeepHeaders | src/net/packet_view.cpp:105-113 | both halves of a split, every chunk, every widened packet and every decoy has the headers of the packet it is made from, all fields but total length, sequence number and checksum |
| Segmentation.SegmentizePayload | src/modify/algorithms/common.cpp:53-88 | the loop over the shrinking span refines the recursive specification |
| Segmentation.SegmentizePartitions | src/modify/algorithms/common.cpp:62-85 | chunks concatenate to the input; there are ceil(n/mss), all but the last of size mss; chunk i starts at the start plus the earlier lengths modulo 2^32; only the first takes over the id, and only from a packet that owes a verdict |
| OptionLists.TimestampShifted | src/modify/algorithms/common.cpp:20-49 | on a well-formed option list both numbers of the first timestamp option move and every other byte stays (section 3.2 of RFC 7323) |
| OptionLists.MssRoundTrip | src/conntrack/conn_tracker.cpp:147-170 | a maximum-segment-size option behind any other options is read back |
| OptionLists.MssMissing | src/conntrack/conn_tracker.cpp:137-173 | without the option the old MSS survives exactly if the list is non-empty and does not end in a no-op; otherwise it becomes 0, not 536 |
| Modifiers.SplitPackets | src/modify/algorithms/split.hpp:192-208 | the three split branches in place refine `Split`, under the condition that it does not fault |
| Modifiers.PassAt | src/modify/algorithms/common.hpp:98-128 | a pass changes the packets on its side of the fake flag pointwise and keeps the others and the order |
| Modifiers.Ipv4Ttl | src/modify/algorithms/common.hpp:98-104 | in place, over a filtered view: only the TTL of the selected packets |
| Modifiers.SequenceOffset | src/modify/algorithms/common.hpp:119-128 | in place: selected sequence numbers move modulo 2^32 and are checksummed again |
| Modifiers.TimestampOffset | src/modify/algorithms/common.hpp:106-117 | in place: selected packets are shifted and checksummed again |
| Modifiers.BadChecksum | src/modify/algorithms/common.hpp:130-142 | in place: the stored checksum of the selected packets becomes zero |
| Modifiers.FillPadding | src/modify/splitter.cpp:109-120 | the fill loop writes the pattern over and over, cut to length; zeros without a pattern |
| Modifiers.PaddingRepeats | src/modify/splitter.cpp:109-120 | the padding starts like the pattern and repeats with its period |
| Modifiers.OverlapPacket | src/modify/splitter.cpp:105-155 | one packet is replaced in place by its widened form |
| Modifiers.Widen | src/modify/disorder.cpp:70-113 | one packet or its re-segmentation around padding and payload, with the duty of the packet it replaces |
| Rewriter.RunSplits | src/modify/splitter.cpp:54-62 | the split loop in place |
| Rewriter.InsertFront | src/modify/splitter.cpp:174-177 | decoys are marked and moved to the front, the rest unchanged |
| Rewriter.SplitterSeqovl | src/modify/splitter.cpp:97-156 | widens the first original in place |
| Rewriter.SplitterProcessFake | src/modify/splitter.cpp:17-46 | the order of the passes over the decoys |
| Rewriter.SplitterProcessOrig | src/modify/splitter.cpp:48-95 | the order of splits, passes and overlap over the originals |
| Rewriter.SplitterModify | src/modify/splitter.cpp:158-181 | decoy or originals, never both |
| Rewriter.DisorderSeqovl | src/modify/disorder.cpp:46-114 | widens the packet after the first original in place |
| Rewriter.DisorderProcessFake | src/modify/disorder.cpp:115-144 | the order of the passes over the decoys |
| Rewriter.DisorderProcessOrig | src/modify/disorder.cpp:145-204 | the order of splits, passes and overlap, spoiling checksums twice |
| Rewriter.DisorderModify | src/modify/disorder.cpp:206-237 | decoy or originals, then the filtered reverse in either case |
| Rewriter.Modifier.RunAll | src/modify/modifier.cpp:50-54 | the modifiers run in list order, skipping those for another protocol |
| Rewriter.Modifier.ModifyPackets | src/modify/modifier.cpp:29-55 | the whole pipeline in place: reassemble originals, find markers once, filter, run |
| Modifiers.RunsExactly | src/modify/modifier.cpp:50-54 | a modifier runs if and only if it names no protocol or this one |
| Modifiers.RunsInTurn | src/modify/modifier.cpp:50-54 | two lists of modifiers run one after the other |
| PacketEdits.OriginalsEdited | src/modify/splitter.cpp:48-95 | field by field what a modifier without overlap does to the originals of either kind: the asked splits, TTL, sequence number and timestamp option, a checksum that is zero, right or untouched as asked, and nothing else; decoys and the order stay |
| PacketEdits.DecoyEdited | src/modify/splitter.cpp:158-177 | the same for a decoy: one packet with the blob behind the front packet's headers, at its sequence number plus the asked offset, without an id |
| Headers.PipelineKeepsHeaders | src/modify/modifier.cpp:29-55 | every packet the pipeline hands over, decoys and overlaps included, has the headers of a captured one: all fields but total length, sequence number and checksum, and TTL and timestamp option only as modifiers for this protocol ask |
| Headers.PipelineKeepsFlow | src/conntrack/conn_tracker.cpp:251-270 | in particular both addresses and both ports are those of a captured packet |
| HostCuts.TargetIs | src/modify/algorithms/split.hpp:103-170 | for split and overlap positions alike: hoststart, hostmid, hostend and sniext mean the first byte of the host name, its middle, the byte behind it and nine bytes before it, plus or minus the given number; other positions are absolute |
| HostCuts.SplitsHit | src/modify/splitter.cpp:54-62 | on packets that tile a payload a list of splits adds one packet each, makes a packet start at each place named and keeps every other boundary |
| HostCuts.HelloCut | src/modify/algorithms/split.hpp:136-190 | end to end on a serialized ClientHello in any segmentation: the places are counted from where the host name's bytes are |
| HostCuts.RequestCut | src/modify/algorithms/split.hpp:103-134 | the same for a request with a Host line |
| HostCuts.HelloFiltered | src/modify/modifier.cpp:13-27 | a captured ClientHello is rewritten if and only if its source address is on the address list and the bytes of its host name are on the host list, where there are such lists |
| StreamKept.SequenceOffsetInvisible | src/modify/algorithms/common.hpp:119-128 | a sequence offset on the originals, by any amount, is invisible to reassembly |
| StreamKept.FilteredReverseParts | src/modify/disorder.cpp:233-236 | the reverse keeps every fake at its index and reverses the subsequence of originals |
| StreamKept.FilteredReverseTwice | src/modify/disorder.cpp:233-236 | it is its own inverse |
| StreamKept.SplitterOriginalsCarry | src/modify/splitter.cpp:48-95 | a splitter without overlap keeps what the originals show of the stream |
| StreamKept.DisorderOriginalsCarry | src/modify/disorder.cpp:145-204 | so does a disorder modifier |
| StreamKept.PipelineKeepsStream | src/modify/modifier.cpp:29-55 | end to end: for any list of modifiers without overlap and any of their other options, the originals reassemble to the same bytes after the pipeline as before |
| Fitness.StampsExactly | src/modify/algorithms/common.cpp:20-41 | a timestamp pass ends inside its bytes if and only if the option walk ends and a timestamp option it finds is complete |
| Fitness.ModifyOneExactly | src/modify/splitter.cpp:158-181 | one modifier without overlap faults if and only if it copies a front packet that is not there, stamps a packet whose options cannot be walked, or splits behind the total payload; otherwise the next modifier meets a computable outline |
| Fitness.ModifyAllFaultsExactly | src/modify/modifier.cpp:50-54 | a list of modifiers faults if and only if one of them does, judged on the packets before the first: payload plus the decoys added so far, and the front packet after the reversals so far |
| Fitness.PipelineFaultsExactly | src/modify/modifier.cpp:29-55 | the pipeline without overlap faults if and only if the marker parser does, the address list meets no packet, or one of the modifiers that run does |
| Fitness.StampingCanStall | src/modify/algorithms/common.cpp:20-41 | a one-packet input on which the pipeline never ends: an option of length zero |
| Fitness.SplittingCanMiss | src/modify/algorithms/split.hpp:122-133 | a nine-byte request and a split at offset 100 that dereferences the end iterator |
| Fitness.PipelineDelivers | src/modify/modifier.cpp:29-55 | without such a fault the pipeline ends and the originals reassemble to the same bytes |
| Verdicts.AcceptedAreIntact | src/main.cpp:104-110 | whatever the modifiers do, overlaps and decoys included, an original left to be accepted came in to be accepted with this id and this whole payload, its number moved by exactly the sum of the offsets; accept verdicts only disappear, and the program sends originals itself if and only if one did |
| Delivery.DestinationReceives | src/main.cpp:101-142 | for any modifiers without overlap, decoys anywhere: the originals that leave the host, kernel copies of accepted packets and sent ones, lie in the captured stream from some origin if and only if the offsets sum to 0 modulo 2^32, no packet lost its accept verdict, or all did; and then they reassemble to what was captured |
| Cuts.KeptExactly | src/modify/algorithms/split.hpp:51-94 | as long as no decoy stands before a split, a captured packet keeps its accept verdict if and only if no requested split offset lies inside it |
| Cuts.DeliveredExactly | src/main.cpp:101-142 | on captured packets that tile a stream the same by positions a caller can check beforehand: delivery works if and only if the offsets sum to 0 modulo 2^32, no captured packet holds a split offset, or each does |
| Torn.MovedNumbersTearTheStream | src/modify/algorithms/common.hpp:119-128 | a two-packet input and a split with a sequence offset after which what leaves the host reassembles to one byte instead of three |
| Health.SplitAtKeeps | src/modify/algorithms/split.hpp:63-84 | a split hands the verdict duty to the first half, adds a duty-free second half and keeps packets well formed |
| Health.SegmentizeKeeps | src/modify/algorithms/common.cpp:66-85 | so does re-segmentation |
| Health.WidenedKeeps | src/modify/splitter.cpp:132-155 | and sequence overlap |
| Health.ReverseKeeps | src/modify/disorder.cpp:233-236 | reversal moves duties around without changing them |
| Health.DecoysKeep | src/modify/splitter.cpp:160-177 | decoys carry no duty |
| Health.DutiesConserved | src/modify/modifier.cpp:29-55 | the multiset of ids on packets that owe a verdict is the same before and after any modifier list, and everything only sent has id 0 |
| Health.SentPacketsWellFormed | src/net/packet_view.cpp:105-113 | every packet the program sends itself has total length equal to its byte count and a verifying checksum, whatever passes ran after it was made |
| OverlapHidden.WidenedFills | src/modify/splitter.cpp:129-155 | re-segmented or not, the replacement carries exactly padding and payload from the earlier start |
| OverlapHidden.PaddedReassembly | src/modify/algorithms/common.hpp:48-74 | padding the lowest segment puts the padding in front of what is reassembled and changes nothing behind it |
| OverlapHidden.SplitterOverlapInvisible | src/modify/splitter.cpp:97-156 | after the splitter's overlap on the lowest segment, reassembly cut at the original first sequence number is the original stream (section 3.10.7.4 of RFC 9293) |
| OverlapHidden.OverlapShown | src/modify/disorder.cpp:70-113 | in any list order: widening the second of two touching segments by at most the first is hidden if and only if no padding shows in the place of the first |
| OverlapHidden.OverlapBeyond | src/modify/disorder.cpp:70-113 | in any list order: widening it by more than the first makes the result longer by exactly the excess |
| DisorderHidden.DisorderOverlapInvisible | src/modify/disorder.cpp:206-237 | for the whole modifier, reversal included, on adjacent leading originals after any of its splits and passes: reassembly is unchanged if and only if the overlap is refused, is shorter than the first original, or is as long and the padding that shows agrees with the first original; without a decoy in front it always is |
| DisorderHidden.DecoyOpensOverlap | src/modify/disorder.cpp:61-64 | a splitter that adds a ten-byte decoy, then an overlap of 2 to 9 bytes: for each such length the pipeline ends and what reassembles is not what was captured |
| OverlapFaults.SplitterOverlapFaultsExactly | src/modify/splitter.cpp:97-156 | the splitter overlap faults if and only if there is an original and the pattern to repeat is empty, or there are bytes to send and the MSS leaves room for none |
| OverlapFaults.DisorderOverlapFaultsExactly | src/modify/disorder.cpp:46-114 | the disorder overlap faults if and only if its position throws, or it is shorter than the front packet and no packet follows the first original or that one cannot be widened |
| OverlapFaults.LengthFaultsExactly | src/modify/disorder.cpp:35-38 | the overlap position sniext throws on every HTTP request with a host and never otherwise |
| OverlapHidden.WidenedFitsMss | src/modify/splitter.cpp:129-137 | given the MSS covers the option bytes, every replacement packet is at most MSS + 40 bytes for the disorder modifier and MSS + 28 for the splitter (section 3.7.1 of RFC 9293) |
| Markers.SafeSubspan | src/util/safespan.hpp:10-16 | the span advances exactly when the offset fits |
| Markers.FindServerName | src/modify/markers.cpp:75-129 | the extension loop refines the recursive scan, with a strictly shorter remainder every round |
| Markers.FindTls | src/modify/markers.cpp:34-130 | the advancing parser refines the scan by absolute offsets |
| Markers.TlsMarkersInside | src/modify/markers.cpp:75-126 | on success hoststart <= hostmid <= hostend <= payload, the middle halves the name, sniext + 9 = hoststart, and the length field is the host length |
| Markers.TlsFaultsExactly | src/modify/markers.cpp:42-54 | the parser reads behind its input exactly on at most five bytes, or on 43 bytes that start a ClientHello |
| Markers.HttpMarkersInside | src/modify/markers.cpp:16-31 | on success the markers enclose the rest of the first Host line up to the first line end, which lies inside the payload |
| Markers.HttpFaultsExactly | src/modify/markers.cpp:21-28 | a view of negative length is built exactly when the first Host line ends right behind the colon |
| Hello.ClientHelloRoundTrip | src/modify/markers.cpp:34-130 | for every serialized hello with any session id, ciphers, non-SNI extensions before, anything after and any trailing bytes, the parser succeeds and delimits exactly the host name (section 4.1.2 of RFC 8446, section 3 of RFC 6066) |
| Hello.HostLineRoundTrip | src/modify/markers.cpp:10-32 | the HTTP parser finds the host of the first Host line in any request head (section 7.2 of RFC 9110) |
| Searching.Search | src/modify/markers.cpp:17-22 | the search returns the first match, and `None` only if there is none |
| Searching.SearchExtend | src/classify/http_classifier.cpp:11-26 | a first occurrence stays the first one when bytes are appended |
| Classify.Classifier.Classify | src/classify/classifier.cpp:23-51 | the counting loop returns the combined verdict on the concatenated payloads |
| Classify.CombineExactly | src/classify/classifier.cpp:27-50 | the combination finishes if and only if some classifier does, waits if and only if none does and some waits, and gives up if and only if all do |
| Recognition.HelloRecognized | src/classify/tls_classifier.cpp:10-33 | from the fifth byte on a ClientHello that arrives in pieces is waited for until exactly the last byte of its record, whatever follows it |
| Recognition.RequestRecognized | src/classify/http_classifier.cpp:7-29 | a payload whose first line is complete is HTTP if and only if the line holds the version, and is then waited for until exactly the first empty line |
| Classify.TlsForward | src/classify/tls_classifier.cpp:10-33 | DONE stays DONE and REASSEMBLING never becomes ERROR when bytes are appended |
| Classify.HttpForward | src/classify/http_classifier.cpp:7-29 | the same for HTTP |
| Classify.CombineForward | src/classify/classifier.cpp:23-51 | the same for any list of classifiers in any order |
| Classify.ProtocolKeptExactly | src/classify/classifier.cpp:28-34 | a finished classification keeps its protocol on a longer payload if and only if no classifier listed earlier finishes on it |
| Classify.RequestKeptExactly | src/classify/tls_classifier.cpp:10-33 | a request changes its protocol if and only if TLS is listed before HTTP and its first five bytes begin a TLS record that ends within the longer payload |
| Classify.ProtocolCanChange | src/classify/classifier.cpp:28-34 | it can change: a concrete payload is HTTP until one byte completes a TLS record around it |
| Conntrack.ParseMssOpt | src/conntrack/conn_tracker.cpp:137-173 | the option walk refines the specification wherever it ends and stays inside its bytes |
| Conntrack.Connection.TrackTransport | src/conntrack/conn_tracker.cpp:175-224 | the field updates of one packet |
| Conntrack.Connection.TrackPacket | src/conntrack/conn_tracker.cpp:111-118 | state, time and counters change, the buffer does not |
| Conntrack.Connection.IsDuplicate | src/conntrack/conn_tracker.cpp:96-109 | true exactly if the sequence number is held |
| Conntrack.Connection.ReasmInsert | src/conntrack/conn_tracker.cpp:63-80 | refines `Inserted`, fast path included |
| Conntrack.ExpiresExactly | src/conntrack/conn_tracker.cpp:226-248 | a connection expires exactly when 60, 15, 6000 or 15 whole seconds have passed since its last packet, by state; a closed one goes with the next sweep unless the clock stepped back by a second or more |
| Lifecycle.StateIsReadOff | src/conntrack/conn_tracker.cpp:187-223 | over any run the state is Closed if and only if an RST was seen; otherwise FIN, ESTAB, SYN exactly as the run shows: established by a first SYN that carries ACK, or by an ACK from the number behind a first SYN without one, finished by a FIN at or after that |
| Lifecycle.RankNeverFalls | src/conntrack/conn_tracker.cpp:175-224 | the rank UNKNOWN < SYN < ESTAB < FIN < CLOSED never decreases, so CLOSED is absorbing |
| Lifecycle.MssFromSyn | src/conntrack/conn_tracker.cpp:175-186 | over any run the MSS is the one the last SYN named, and 536 without any SYN |
| Buffers.FastPathIsSort | src/conntrack/conn_tracker.cpp:69-77 | in the window the fast path gives the same list as append-and-sort |
| Buffers.AscendingUnique | src/conntrack/conn_tracker.cpp:85-91 | there is only one strictly ascending arrangement, so the unstable sort of the code has no choice |
| Buffers.BufferIsFirstArrivals | src/conntrack/conn_tracker.cpp:63-109 | for any arrival order in a half-circle window the buffer is the first arrivals, one per sequence number, in strictly increasing serial order |
| Buffers.ArrivalOrderFree | src/conntrack/conn_tracker.cpp:63-80 | without retransmissions the order of arrival leaves no trace |
| Buffers.HeldTilingConcatenates | src/modify/algorithms/common.hpp:77-95 | when the held segments tile a range, `concat_sorted` is the stream and equals `concat` |
| Engine.ConnTracker.GetConn | src/conntrack/conn_tracker.cpp:251-270 | finds or creates the connection, leaving all others alone |
| Engine.ConnTracker.SweepOne | src/conntrack/conn_tracker.cpp:288-300 | an expired connection is removed and its held packets accepted, any other one kept |
| Engine.ConnTracker.ClearDeadConnections | src/conntrack/conn_tracker.cpp:272-302 | walks the whole table in some order and refines the sweep in that order |
| Engine.EmitAll | src/main.cpp:103-142 | the verdict loop |
| Engine.Callback.Handle | src/main.cpp:92-157 | hold, finish or give up: the connection fields and the log change as decided |
| Engine.Callback.CbLoop | src/main.cpp:78-162 | one callback changes table and log as the arrival step says |
| Engine.Callback.RunSweep | src/conntrack/conn_tracker.cpp:272-302 | one sweep changes table and log as the sweep step says, for some order of the whole table |
| Accounts.EmitDecides | src/main.cpp:103-142 | the loop issues verdicts for exactly the ids that owe one, each as often |
| Accounts.AcceptedHaveIds | src/main.cpp:106 | the assertion that an accepted packet has an id holds, whatever the modifiers did |
| Accounts.ArrivalBalances | src/main.cpp:85-162 | per arrival: held plus decided plus lost afterwards is held plus decided before plus the new id |
| Accounts.SweepExactly | src/conntrack/conn_tracker.cpp:285-301 | walking the table in any order removes exactly the expired connections and decides exactly the ids they held |
| Accounts.LedgerBalances | src/main.cpp:85-162 | over all runs of arrivals and sweeps: held plus decided plus lost equals arrived, with multiplicity |
| Accounts.OneVerdictEach | src/main.cpp:85-162 | with fresh ids no id ever gets two verdicts, held and decided are disjoint, and a lost id is never decided |
| Accounts.LogGrows | src/main.cpp:103-157 | what is decided stays decided |
| Accounts.ArrivalSettles | src/main.cpp:85-156 | data on an undecided connection decides it, with the protocol found, if and only if the classifiers do not wait, and is held otherwise; a decided connection stays decided, keeps its protocol and holds nothing new; packets are sent only by the arrival that decides; other connections do not change |
| Accounts.CompletionPutsOut | src/main.cpp:94-142 | the arrival that completes a request puts out what the pipeline of its port's profile makes of the held packets and the new one, for the protocol found and with the connection's MSS |
| Accounts.KeysExactly | src/conntrack/conn_tracker.cpp:251-270 | two packets meet in one connection if and only if both addresses and both ports are equal |
| Accounts.OthersUntouched | src/main.cpp:78-82 | any number of arrivals that differ in an address or a port leave the state and the buffer of a connection alone |
| Accounts.LastSeen | src/conntrack/conn_tracker.cpp:111-118 | over any run the time a connection carries is that of its last packet, whatever came for others |
| Accounts.HandledOnce | src/main.cpp:97-101 | along a run a decided connection stays decided as long as it is in the table, and each of its packets is accepted at once; after a sweep the same endpoints may be rewritten again |
| Accounts.DoneHoldsNothing | src/main.cpp:97-148 | over all runs a decided connection holds nothing |
| InOrder.ContinuedInsert | src/conntrack/conn_tracker.cpp:68-77 | a continuing arrival is never taken for a duplicate and ends up last, through the sort where the number wraps |
| InOrder.NeverFailsHolding | src/main.cpp:146-157 | classification cannot fail on a continuing arrival while something is held |
| InOrder.NothingIsLost | src/main.cpp:85-162 | in every in-order run without retransmissions each arrived id is held or decided exactly once, expired connections included |
| Losses.LosesExactly | src/main.cpp:146-157 | an arrival leaves some id neither held nor decided if and only if it brings data to an undecided connection and either classification fails with packets held or it repeats a held number without failing |
| Losses.RunLosesExactly | src/main.cpp:85-162 | over a run every arrived id is held or decided, as often as it arrived, if and only if no arrival of the run is such a one |
| Losses.RetransmissionIsLost | src/conntrack/conn_tracker.cpp:68 | a two-packet run whose retransmission is neither held nor decided |
| Losses.FailureLosesHeld | src/main.cpp:147-153 | a two-packet run in which the buffer is cleared before the loop that would release it |
| Progress.ArrivalFaultsExactly | src/main.cpp:85-142 | an arrival faults if and only if it is a SYN whose options cannot be walked, brings data for a port without a profile, or completes a request on which the pipeline faults; the verdict loop never does |
| Progress.RunFaultsExactly | src/main.cpp:85-162 | a run with profiles without overlap faults if and only if one of its packets is such a packet in the state the events before it left |
| Wires.RunDelivers | src/main.cpp:85-162 | over every run that forgets nothing, with fresh ids, no overlap and no moved numbers: what the log puts on the wire for a connection, together with what is held for it, reassembles (decoys aside) to everything captured for it; once nothing is held the wire alone does |
| Wires.InOrderDelivers | src/main.cpp:85-162 | in-order runs without retransmissions are such runs |

## Left out

- UDP and QUIC: `concat`, sorting and checksums throw for anything but TCP; the model is TCP only.
- Netlink, raw sockets, iptables, MTU lookup, signal handling: verdicts and sends are appends to a log, and a failing send is not modelled. The clock is a parameter counted in nanoseconds.
- TOML parsing, profile building, blob files and `parse_position`: their results are datatypes. A negative `seqovl` of the splitter, which no configuration should give, is not representable.
- The table of profiles is a map by destination port; a port without a profile is a fault, as the code asserts.
- IP header checksum: the code does not recompute it after changing the TTL or the length, and no theorem speaks of it.
- Headers whose length fields are below five words are a fault of `ParsePacketView`; the code would read overlapping headers.
- Byte values above 127 in the `Host:` search: `tolower` on negative characters is outside its contract and is modelled as identity.
- Error strings and logging are collapsed: every error return of a parser is one value.
- Hashing: the connection table is a map. The order in which a sweep walks it is left open, and results hold for every order.
- `std::sort` of the reassembly buffer is modelled by the stable sort. In the window the result is unique (`Buffers.AscendingUnique`); outside it the C++ call has no defined result while the model has one.
- `std::reverse` and `std::stable_sort` are library calls and stay specification functions.
- Pointer lifetimes and spans into vectors: packets are values in a vector object, so aliasing between a span and the vector it points into is not modelled.
- `segmentize` is never called with an empty payload or a zero size in the model; `Modifiers.Widened` faults there instead.
- Segmentation.TimestampValOffset: requires that a timestamp option is not cut off by the end of the option list; there the C++ code writes over the bytes behind the options, which the record of a packet cannot express, and the specification faults.
- Cuts.DeliveredExactly: requires that no decoy stands among the packets when a split is made, because the offset search then walks over the decoy's bytes too; with decoys anywhere `Delivery.DestinationReceives` is exact in terms of the accept verdicts that are left.
- Fitness.PipelineFaultsExactly: is about pipelines without sequence overlap; when a single overlap faults is in `overlapfaults.dfy`.
- Wires.RunDelivers: leaves out moved numbers and overlaps, for which one pipeline's result is in `Cuts.DeliveredExactly`, `OverlapHidden.SplitterOverlapInvisible` and `DisorderHidden.DisorderOverlapInvisible`.
- InOrder.NothingIsLost: takes in-order arrival relative to what the connection holds, with less than 2^31 bytes held at a time.
