# AnLF verification model

A Dafny model of the AnLF traffic-anomaly pipeline and proofs about it. The pipeline counts packets
per UE in eBPF maps, reads and resets the counters once per poll, turns them into features, asks an
LLM about each UE through worker queues, and charges a leaky-bucket risk score that blocks and
unblocks UEs.

One module per part, in the order the data flows:

| module | part |
|---|---|
| `Gtpu` | the GTP-U header and extension-chain parser |
| `PacketPath` | the XDP and TC programs, one method per C function, over the maps as fields |
| `PacketBytes` | packets written field by field, and what each field does to each map |
| `Encapsulation` | tunnelled against raw packets, uplink and downlink |
| `PacketRuns` | runs of packets, evictions and deletions: the UE counters |
| `NewFlows`, `TlsOnce`, `TopN` | the same runs: new-flow counter, TLS captures, byte statistics |
| `MicroSteps` | several CPUs inside one UE entry, one atomic addition at a time |
| `Bitmap` | destination hashing, `CountBits`, fan-out |
| `Snapshot` | `ReadAndReset` interleaved with packets |
| `Features`, `Moments`, `Analyzer` | feature vectors, emptiness, records read in the middle of packets, poll numbering and averages |
| `PromptTemplate`, `PromptBuilder`, `PromptFields` | placeholder substitution, line splitting, the prompt, its fields |
| `BatchFanOut`, `ExchangeSort` | `HandleBatch` under any goroutine schedule, the two sorts |
| `RiskScoring`, `RiskLaws`, `RiskScorer` | the score as a function, its laws, the program's objects |
| `Pipeline` | a poll's records through `HandleBatch` into the scorer |
| `WorkQueue`, `BaseQueue` | the queue as a step relation, and the program's queue refining it |
| `Lifecycle`, `TwoStageShutdown` | stop order, and the two queues stopped one after the other |

`Reals` holds a few facts about multiples, `MapTotals` about maps of amounts, `Wrappers` the option type.

Concurrent parts are state machines: a schedule is a list of events, and a theorem about a run holds
for every list whose events are enabled one after the other. Where the program changes state step by
step, the model does too (loops, arrays, classes with fields), and each such method is proved equal to
a function whose properties are then proved.

What time it is, what the LLM answers, which case a `select` picks, which keys an LRU map evicts, which
keys an iterator yields, and what `log10` returns are parameters or free choices.

## Where code and documentation disagree

The model follows the code; where a difference has consequences, a theorem says which.

- The scorer's header comment (risk_scorer.go:14-16) says an attack is a confidence above the cutoff and a
  block a score above the threshold; the code, and the model, include equality in both.
- The constructor's defaults do not always order the thresholds: `RiskScoring.DefaultsOrderThresholdsExactly`
  says when they do, `RiskScoring.DefaultsMayCrossThresholds` shows when not.
- A default score of 0.1 is called "Normal" (anomaly_detector.go:178); with a configured cutoff of at
  most 0.1 it is an attack: `Pipeline.FailOpenExactly`.
- "Process remaining messages" on shutdown (base_queue.go:134) can fail when the context is cancelled before
  the workers have drained, and the application and `LifecycleManager.Shutdown` cancel it first:
  `WorkQueue.StopDrainsExactly`, `WorkQueue.StopDrainsUnlessCancelledLater`.
- `ReadAndReset` is described as atomic and free of loss (manager.go:123-124); packets between a key's
  last read and its deletion are lost: `Snapshot.LostExactly`, `Snapshot.NoGapNoLoss`, `Snapshot.GapLoses`.
- "No traffic activity" (anomaly_detector.go:28-29) ignores the downlink: `Features.DownlinkOnlyIsEmpty`.
- Raw downlink packets "to UE devices" (anlf.c:572-573) leave out UDP and some packets from 8.0/16:
  `Encapsulation.RawDownlinkExactly`.
- The IP header length field is honoured for uplink TCP (anlf.c:239-240) and nowhere else: with IP options UDP
  ports are read from the options (`PacketBytes.UdpBehindOptionsIsMisread`), and downlink TCP flags at byte 33
  whatever is there (`PacketBytes.DownlinkCounters`).
- `splitLines` re-encodes bytes from 0x80 on: `PromptBuilder.LinesSurviveExactly`.
- After a failed start every registered component is stopped, not only the started ones
  (lifecycle.go:57-58): `Lifecycle.LifecycleManager.StartAll`.

## Model

| member | source | states |
|---|---|---|
| `Gtpu.StepExtOnce` | bpf/protocols/gtpu.h:23-37 | one unrolled extension step agrees with one step of the unbounded walk; it refuses exactly a malformed step and does nothing when no extension follows |
| `Gtpu.GtpuLocateInnerL3` | bpf/protocols/gtpu.h:39-82 | the unrolled parser returns the end of the unbounded walk when it is reached in at most six hops, and -1 otherwise; the message length it reports |
| `Gtpu.InnerBounds` | bpf/protocols/gtpu.h:39-82 | a located offset is a multiple of 4, between 8 and the buffer length, and with any flag set within the declared message length |
| `Gtpu.WalkOfBytes` | bpf/protocols/gtpu.h:23-37 | walking an encoded chain of any length visits all its extensions and stops right behind the last |
| `Gtpu.BytesOfWalk` | bpf/protocols/gtpu.h:23-37 | conversely, what any successful walk passes over is an encoded chain with as many extensions as hops |
| `Gtpu.EncodedIsLocated` | bpf/protocols/gtpu.h:39-82 | round trip: parsing an encoded header (3GPP TS 29.281 sections 5.1 and 5.2.1) finds the exact payload offset with up to six extensions and -1 with more |
| `Gtpu.LocatedByBits` | bpf/protocols/gtpu.h:58-77 | for a header written byte by byte, every combination of the bits E (4), S (2) and PN (1): the inner packet is found at 8, at 12, or with E behind the extension chain if it has at most six extensions |
| `Gtpu.LocatedIsEncoded` | bpf/protocols/gtpu.h:63-77 | with the E flag, a buffer is accepted if and only if it starts with an encoded chain of at most six extensions inside the declared length, and then the offset is the chain's end |
| `PacketPath.Datapath.AnlfXdpMain` | bpf/anlf.c:422-453 | the XDP entry point changes every map and sends the TLS event as the one uplink packet in the frame demands, or changes nothing when there is none |
| `PacketPath.Datapath.ProcessInnerIp` | bpf/anlf.c:200-359 | an inner packet from 10.60/16 updates counters, flow, TLS and byte maps as specified; any other packet changes nothing |
| `PacketPath.Datapath.TrackTransport` | bpf/anlf.c:237-312 | flags, port, new-flow mark, flow map, TLS state and event for a TCP header behind the IP options or a UDP header at byte 20 |
| `PacketPath.Datapath.CheckAndCaptureTls` | bpf/anlf.c:160-198 | an event is sent exactly when the payload behind the TCP options starts with 0x16, with its first ten bytes, zero-padded |
| `PacketPath.Datapath.CopyPayload` | bpf/anlf.c:148-157 | the copy is the first ten bytes, zero-padded |
| `PacketPath.Datapath.UpdateUeUplinkMetrics` | bpf/anlf.c:28-102 | both branches, new entry and existing one, are the same addition to an entry that is zero when missing, refused only by a full map |
| `PacketPath.Datapath.UpdateUeDlMetrics` | bpf/anlf.c:104-141 | the same for the downlink counters; nothing else changes |
| `PacketPath.Datapath.UpdateTopStats` | bpf/anlf.c:317-356 | the three byte maps for a destination in 10.201/16, the port map only for TCP and UDP with a port above 0 |
| `PacketPath.Datapath.HandleGtpu` | bpf/anlf.c:361-380 | what lies behind a located GTP-U header is processed as an inner packet |
| `PacketPath.Datapath.AnlfTcEgress` | bpf/anlf.c:578-617 | the egress entry point counts the one downlink packet of the frame, or nothing |
| `PacketPath.BucketOfBytes` | bpf/anlf.c:63-69 | the bucket of an address is the low six bits of the exclusive-or of its four bytes |
| `PacketPath.BitsTell` | bpf/anlf.c:47-50 | testing a bit of a byte by mask is testing that binary digit of its value |
| `PacketBytes.TcpRoundTrip` | bpf/anlf.c:237-312 | an uplink TCP packet written field by field, with any IP and TCP options, is read as exactly those addresses, ports, flags and payload |
| `PacketBytes.UdpRoundTrip` | bpf/anlf.c:293-299 | an uplink UDP packet without IP options likewise |
| `PacketBytes.UdpBehindOptionsIsMisread` | bpf/anlf.c:293-299 | with IP options a UDP packet's ports are read from the options |
| `PacketBytes.TcpCounters` | bpf/anlf.c:41-69 | an uplink TCP packet adds to its UE one packet, its bytes, one TCP, one SYN and one RST exactly if those flags are set, a new flow exactly if SYN is set and the five-tuple is not tracked, and the bit of its destination; nothing else changes |
| `PacketBytes.TcpFlows` | bpf/anlf.c:276-291 | the flow map gains the five-tuple exactly if SYN is set and it is missing |
| `PacketBytes.TcpTls` | bpf/anlf.c:247-274 | on port 443 a payload that starts with 0x16 on a flow not yet captured sends one event with the addresses, the ports and the first ten bytes, zero-padded, and sets the flow's two state bits; any other packet only marks an unknown flow seen |
| `PacketBytes.TcpStats` | bpf/anlf.c:321-356 | a destination in 10.201/16 adds all bytes to its address, its /24 and, above 0, its port; any other destination to none |
| `PacketBytes.UdpCounters` | bpf/anlf.c:293-315 | an uplink UDP packet adds one packet, its bytes, one UDP, a new flow exactly if its five-tuple is not tracked, and the bit of its destination |
| `PacketBytes.UdpFlows` | bpf/anlf.c:293-311 | its five-tuple is tracked from then on; no TLS state or event |
| `PacketBytes.OtherCounters` | bpf/anlf.c:41-69 | any other uplink packet, or one whose transport header is cut short, is counted by its protocol byte alone: no flow, no flags, no TLS, no port |
| `PacketBytes.FullMapRefuses` | bpf/include/maps.h:40-45 | with 10240 entries a UE without one gets none, and no other entry changes |
| `PacketBytes.TcpDownlinkCounters` | bpf/anlf.c:116-126 | a raw downlink TCP packet without IP options adds one packet, its bytes, one TCP, and an acknowledgement exactly if ACK is set, to the UE it is for, and changes nothing else |
| `PacketBytes.DownlinkCounters` | bpf/anlf.c:472-509 | any raw downlink packet that is not UDP and not from 8.0/16, by its bytes; the flags are those at byte 33 |
| `Encapsulation.EncapsulationIsTransparent` | bpf/anlf.c:361-453 | for every packet not mistaken for Ethernet: its GTP-U wrapping with any flags and up to six extensions changes every map and sends the same event as the raw packet; with more extensions it changes nothing |
| `Encapsulation.UplinkIsNotEthernet` | bpf/anlf.c:430-450 | a packet with source in 10.60/16 is never mistaken for an Ethernet frame, so the raw path counts it as itself |
| `Encapsulation.OtherFramesAreIgnored` | bpf/anlf.c:388-401 | an Ethernet frame with IPv4 in it is counted only with UDP from or to port 2152 in it |
| `Encapsulation.OtherPacketsAreIgnored` | bpf/anlf.c:206-233 | among raw packets exactly the IPv4 ones from 10.60/16 are counted |
| `Encapsulation.OtherSentPacketsAreIgnored` | bpf/anlf.c:472-492 | on egress nothing but IPv4 to 10.60/16 is counted, and raw UDP only as a tunnel on port 2152 |
| `Encapsulation.CountedIsLocated` | bpf/anlf.c:361-402 | for any GTP-U bytes at all, what is counted is the inner packet at the located offset |
| `Encapsulation.TunnelledDownlink` | bpf/anlf.c:519-566 | the same round trip through the egress program |
| `Encapsulation.RawDownlinkExactly` | bpf/anlf.c:584-613 | a raw downlink packet is counted as itself if and only if it is not UDP and not mistaken for Ethernet; raw UDP off port 2152 whose bytes 12-13 are not 0x0800 is never counted |
| `Encapsulation.DownlinkIsNotTransparent` | bpf/anlf.c:596-613 | a UDP packet to a UE is counted inside a tunnel and not counted raw |
| `PacketRuns.CountersAlwaysConsistent` | bpf/anlf.c:28-141 | after any run of packets, evictions and deletions every entry has tcp + udp + icmp <= packets, syn and rst <= tcp, new flows <= tcp + udp, dl ack <= dl tcp <= dl packets, at least 20 bytes a packet, an empty bitmap exactly without uplink packets, no more bits than packets |
| `PacketRuns.EntryIsHistory` | bpf/anlf.c:28-141 | after every run a UE has an entry exactly if packets of it found room since its last deletion, and every counter and the bitmap are the sums over those packets alone; a packet refused by a full map leaves no trace |
| `PacketRuns.FewUesNoRefusal` | bpf/include/maps.h:41-46 | a run that involves no more UEs than the map holds refuses no packet |
| `PacketRuns.FanOutExact` | bpf/anlf.c:63-69 | after every run the ones of the bitmap are the distinct hash buckets of the destinations of the UE's counted packets: at most 64, at most the distinct destinations, at most the packets |
| `NewFlows.TrackedExactly` | bpf/anlf.c:276-311 | after every run the flow map holds exactly the flows opened since their last eviction |
| `NewFlows.NewFlowsAreStretches` | bpf/anlf.c:276-311 | after every run, whatever is evicted, deleted or refused, the new-flow counter of a UE is the number of stretches between evictions of its flows begun since its entry was last deleted by packets that found room |
| `NewFlows.NewFlowsFlowByFlow` | bpf/anlf.c:276-311 | while the entry is not deleted, the counter plus the stretches begun by refused packets is the sum, over the UE's distinct flow keys, of the stretches of each |
| `NewFlows.NewFlowCountExact` | bpf/anlf.c:276-311 | with no flow of the UE evicted and its entry not deleted, the counter plus the flows first opened by refused packets is the number of its distinct TCP-SYN and UDP flow keys; without refusals, the counter itself |
| `NewFlows.NewFlowCountOfFewUes` | bpf/include/maps.h:41-54 | in particular when the run involves no more UEs than the map holds |
| `TlsOnce.CapturedOncePerStretch` | bpf/anlf.c:247-274 | under any evictions, the state bit is set exactly if a hello came since the last eviction, and the captures of a flow are the stretches between evictions that hold a hello |
| `TlsOnce.CapturesAreBounded` | bpf/include/maps.h:102-109 | the captures of a flow are at most one more than the evictions of its state |
| `TlsOnce.CapturedExactlyOnce` | bpf/anlf.c:256-273 | without evictions a flow is captured once if any packet on it to port 443 starts with 0x16, and never otherwise |
| `TopN.TopNConserved` | bpf/anlf.c:317-356 | over any run every address, /24 and port entry is exactly the bytes sent there, each /24 entry is the sum of its 256 address entries, the address and /24 totals are the laboratory bytes, the port total those with a port, and no insert is refused |
| `TopN.PortsWithinAddresses` | bpf/include/maps.h:56-79 | total port bytes are at most total address bytes, which equal total /24 bytes; the three maps stay within their capacities |
| `TopN.IpNeverRefused` | bpf/include/maps.h:74-79 | with keys in 10.201/16 the address map always has room for a new one |
| `MicroSteps.EveryMomentInOrder` | bpf/anlf.c:41-69 | for any number of CPUs interleaving the additions of any packets on one entry, every intermediate state keeps the inequalities between counters |
| `MicroSteps.CompletionExact` | bpf/anlf.c:41-69 | once all are done each counter has grown by exactly the packets of its kind, whatever the interleaving |
| `MicroSteps.BitmapAtEveryMoment` | bpf/anlf.c:63-69 | at every moment the bitmap holds the initial bits and those of the finished uplink packets, no others |
| `MicroSteps.BytesMayLag` | bpf/anlf.c:42-43 | the byte counter is not among the inequalities: right after the first addition of any uplink packet on any entry the packet is counted and its bytes are not, so an entry with less than 20 bytes per packet plus one, as a downlink-only one, shows fewer than 20 bytes per packet |
| `MicroSteps.SwappedOrderBreaks` | bpf/anlf.c:42-46 | counting the protocol before the packet would break the inequalities |
| `Bitmap.CountBits` | pkg/ebpf/manager.go:219-226 | the loop returns the number of ones |
| `Bitmap.PopOfSet` | bpf/anlf.c:68-69 | ORing in a bit adds one to the number of ones if the bit was clear and nothing otherwise |
| `Bitmap.FanOutIsBounded` | bpf/anlf.c:63-69 | the bitmap of any list of destinations has every destination's bit, and as many ones as distinct buckets, at most 64 and at most the distinct destinations |
| `Bitmap.BucketIsXorOfBytes` | bpf/anlf.c:65-68 | the bucket depends only on the exclusive-or of the four address bytes, so not on byte order |
| `Bitmap.DistinctAddressesMayCollide` | bpf/anlf.c:65-68 | two destinations can share a bucket, so fan-out can undercount |
| `Snapshot.Manager.ReadAndReset` | pkg/ebpf/manager.go:125-156 | with nothing landing meanwhile: the map returned is the old contents, and the map is empty afterwards |
| `Snapshot.WindowAccounting` | pkg/ebpf/manager.go:125-156 | packets interleaved with any number of reads: for every UE arrived = reported over all windows + read and deleted but not yet returned + still in the map + thrown away in the gap + refused by a full map, at every moment |
| `Snapshot.LostExactly` | pkg/ebpf/manager.go:136-153 | what is lost of a UE is exactly what lands after its last visit or deletion and before a deletion of it |
| `Snapshot.NoGapNoLoss` | pkg/ebpf/manager.go:136-153 | between reads, reported + resident (+ refused) = arrived if and only if no packet of the UE lands after its last visit or deletion and before a deletion of it |
| `Snapshot.RevisitKeeps` | pkg/ebpf/manager.go:136-141 | a packet landing between two visits of its key is not lost |
| `Snapshot.GapLoses` | pkg/ebpf/manager.go:136-153 | the gap is real: a packet landing in it is in no window and not in the map |
| `Features.EmptinessAgrees` | internal/analyzer/detector/anomaly_detector.go:28-40 | for reachable counters or a missing entry, the nine-field test, the three-field test and "no uplink packet in the window" are the same, whatever log10 is |
| `Features.ReachableRecordsAgree` | internal/analyzer/analyzer.go:103-108 | the same for every entry after any run of the data path |
| `Features.RatiosInRange` | pkg/ebpf/features.go:38-58 | for reachable counters the ratios lie in [0, 1] after rounding, the clamp on the flow rate never acts, and with an uplink packet the average length is at least 20 |
| `Features.UplinkFeatures` | pkg/ebpf/features.go:26-56 | with uplink packets each of the eight uplink features but fan-out is, to half a hundredth, its own counter over the packets (or log10 of the packets); a flow rate above 1 reads 1.0 |
| `Features.DownlinkFeatures` | pkg/ebpf/features.go:67-90 | with downlink packets each of the five downlink features is its own pair of counters, or 0 without the denominator |
| `Features.FanOutFeature` | pkg/ebpf/features.go:58 | the fan-out is the number of ones of the bitmap over 64 |
| `Features.ZeroFeatures` | pkg/ebpf/features.go:26-90 | a side without packets has zeros in all its features |
| `Features.MissingFeatures` | pkg/ebpf/features.go:13-15 | a missing entry has zeros everywhere |
| `Features.FeaturesOfRun` | pkg/ebpf/features.go:12-109 | after any run the features of a UE are the ratios of the sums over its own packets since its entry was last deleted |
| `Features.RoundHalves` | pkg/ebpf/features.go:94-108 | halves are rounded away from zero |
| `Features.EmptyExactly` | internal/analyzer/detector/anomaly_detector.go:28-40 | a record is empty exactly if all nine uplink features are 0, whatever the five downlink ones are |
| `Features.HundredthsNearest` | pkg/ebpf/features.go:92-109 | rounding moves a value by at most half a hundredth |
| `Features.HundredthsIdempotent` | pkg/ebpf/features.go:92-109 | rounding twice is rounding once |
| `Features.DownlinkOnlyIsEmpty` | internal/analyzer/detector/anomaly_detector.go:28-40 | a UE with downlink traffic only, however much, is treated as empty by both tests |
| `Features.FirstPacketIsStoredWhole` | bpf/anlf.c:71-100 | the entry a UE's first packet inserts never looks empty or inactive |
| `Moments.TestsAgreeAtEveryMoment` | internal/analyzer/detector/anomaly_detector.go:28-40 | for a record read at any moment of any interleaving of CPUs on a consistent entry, with log10(1) = 0 and log10(x) >= 0.005 from 2 on: both tests agree, and say "no traffic" exactly when no packet is counted, or a single one whose bytes are not |
| `Moments.UplinkAfterDownlinkMayLookIdle` | bpf/anlf.c:41-43 | the exception is real: on the entry a downlink packet left, right after the first addition of the UE's first uplink packet, the record counts as empty |
| `Moments.NeverIdleAfterUplink` | bpf/anlf.c:41-69 | from a consistent entry with an uplink packet no moment looks empty or inactive |
| `Moments.LooksIdleExactly` | bpf/anlf.c:41-69 | on a consistent entry some moment counts an uplink packet and looks empty if and only if the entry has neither uplink packets nor uplink bytes |
| `Analyzer.FlowAnalyzer.ProcessBatch` | internal/analyzer/analyzer.go:90-162 | the poll number goes up by one and into the batch and every record; the statistics are those of the active records and go into every record; without active records the old statistics stay |
| `Analyzer.FlowAnalyzer.ComputeStats` | internal/analyzer/analyzer.go:97-145 | the statistics are the rounded averages over the active records, downlink ones over records with downlink traffic, and nothing without active records |
| `Analyzer.StatsAreMeans` | internal/analyzer/analyzer.go:125-139 | each of the eight statistics is the rounded mean of its own feature, the uplink four over the records with some uplink traffic, the downlink four over those of them with a positive downlink rate |
| `Analyzer.FlowAnalyzer.SumUp` | internal/analyzer/analyzer.go:99-124 | the accumulating loop computes the eight sums and the two counts |
| `Analyzer.OrderIsIrrelevant` | internal/analyzer/analyzer.go:102-140 | the statistics depend on the records as a multiset only |
| `Analyzer.InactiveIsIgnored` | internal/analyzer/analyzer.go:103-108 | taking an inactive record out, anywhere, changes no statistic |
| `Analyzer.AverageWithin` | internal/analyzer/analyzer.go:125-139 | an average in hundredths lies within any bounds, in hundredths, that hold for the active values |
| `PromptTemplate.IndexOf` | internal/analyzer/detector/llm_client.go:227-235 | the leftmost occurrence, or -1 when there is none |
| `PromptTemplate.ReplaceAllText` | internal/analyzer/detector/llm_client.go:212-225 | for a non-empty search text the loop terminates and computes leftmost non-overlapping replacement |
| `PromptTemplate.EndsExactly` | internal/analyzer/detector/llm_client.go:213-225 | the loop terminates exactly when the search text is not empty, then within one turn more than the text has characters |
| `PromptTemplate.ReplacedIsSubstitute` | internal/analyzer/detector/llm_client.go:206-225 | replacing {key} in any text is the one-key simultaneous substitution |
| `PromptTemplate.Fusion` | internal/analyzer/detector/llm_client.go:206-225 | substituting one key and then others is one substitution, when the value occurs in none of the other keys: no seam of value and text makes a new placeholder |
| `PromptTemplate.ChainIsSimultaneous` | internal/analyzer/detector/llm_client.go:117-155 | a chain of replacements in which no value is part of a later key equals one simultaneous left-to-right substitution, on every template |
| `PromptTemplate.ChainExact` | internal/analyzer/detector/llm_client.go:117-155 | for distinct brace-free keys and brace-free values the chain equals the simultaneous substitution on all templates if and only if no value is part of a later key |
| `PromptTemplate.DependentPairBreaks` | internal/analyzer/detector/llm_client.go:117-155 | for each such pair, a template on which the two differ |
| `PromptTemplate.OrderIrrelevant` | internal/analyzer/detector/llm_client.go:117-155 | the order of the replacements does not matter when values occur in no key |
| `PromptTemplate.NothingLeft` | internal/analyzer/detector/llm_client.go:117-155 | no {key} of the chain is left in its result |
| `PromptTemplate.SplitLines` | internal/analyzer/detector/llm_client.go:237-253 | the loop computes the lines of the re-encoded text |
| `PromptTemplate.Utf8Decodes` | internal/analyzer/detector/llm_client.go:246 | the two bytes a character from 0x80 on becomes decode back to it (RFC 3629) |
| `PromptTemplate.JoinLines` | internal/analyzer/detector/llm_client.go:255-265 | the loop joins with newlines in between |
| `PromptTemplate.JoinOfSplit` | internal/analyzer/detector/llm_client.go:237-265 | joining the lines of a text gives it back up to one final newline |
| `PromptTemplate.SplitJoinExact` | internal/analyzer/detector/llm_client.go:237-265 | splitting joined lines gives them back if and only if no line holds a newline and the last is not empty |
| `PromptBuilder.LinesSurviveExactly` | internal/analyzer/detector/llm_client.go:237-265 | splitting and joining keeps a text, but for a final newline, if and only if it is ASCII |
| `PromptBuilder.RenderedIsInert` | internal/analyzer/detector/llm_client.go:117-155 | values with a character found in no key, and no brace, meet the conditions of all the substitution theorems |
| `PromptBuilder.BuildSingleUEPrompt` | internal/analyzer/detector/llm_client.go:114-204 | both parts of the prompt are the simultaneous substitution of the template, split at the last "User Data:" line or the fallback, and no known placeholder is left in either |
| `PromptFields.GlobalPlaceholders` | internal/analyzer/detector/llm_client.go:118-128 | each of the eight global placeholders stands for its own statistic |
| `PromptFields.MissingGlobals` | internal/analyzer/detector/llm_client.go:129-139 | without statistics all eight stand for "N/A" |
| `PromptFields.SystemPlaceholders` | internal/analyzer/detector/llm_client.go:141-155 | in the system prompt each of the fourteen UE placeholders stands for its own feature |
| `PromptFields.UserPlaceholders` | internal/analyzer/detector/llm_client.go:185-201 | and in the user prompt |
| `PromptFields.OnePlaceholder` | internal/analyzer/detector/llm_client.go:117-155 | a template that is one placeholder is filled with exactly its value |
| `PromptFields.FallbackLine` | internal/analyzer/detector/llm_client.go:181-192 | without a user line the user prompt reads "User Data: PPS:", the rate, ", UL_Len:", the length, and so on, field by field |
| `PromptFields.UserLineIsLast` | internal/analyzer/detector/llm_client.go:161-175 | of several lines that begin with "User Data:" the last is the user line; the lines after it stay, in order |
| `PromptFields.NoUserLine` | internal/analyzer/detector/llm_client.go:161-183 | without one there is no user line and all lines stay |
| `PromptBuilder.SeparateUserLine` | internal/analyzer/detector/llm_client.go:161-172 | the last user line, and all other lines in order |
| `BatchFanOut.BatchOutcome` | internal/analyzer/detector/anomaly_detector.go:121-197 | under any goroutine schedule and any LLM failures, at wg.Wait the results are exactly one expected result per record, every record was skipped as empty or asked about, and the errors are the failed requests |
| `BatchFanOut.ResultOfEach` | internal/analyzer/detector/anomaly_detector.go:142-192 | one result per record: 0.0 for an empty one, the answer for an answered one, 0.1 for a failed one, and no others |
| `BatchFanOut.InFlightBounded` | internal/analyzer/detector/anomaly_detector.go:119-140 | at any moment at most maxConcurrent goroutines hold a slot |
| `BatchFanOut.EveryScheduleFinishes` | internal/analyzer/detector/anomaly_detector.go:131-197 | no schedule runs longer than 6n + 2 steps or gets stuck before returning; with no slots at all a non-empty batch never returns (a configured 0 is replaced by 100) |
| `BatchFanOut.ScheduleIrrelevant` | internal/analyzer/detector/anomaly_detector.go:219-224 | for distinct SUPIs the sorted results given to the scorer are the same list under every schedule and limit |
| `ExchangeSort.GetTop3` | pkg/ebpf/manager.go:308-324 | a permutation in descending order, of which the first three, or all, are returned: nothing left out is larger |
| `ExchangeSort.SortResultsBySUPI` | internal/analyzer/detector/anomaly_detector.go:306-316 | a permutation ordered by SUPI |
| `ExchangeSort.AtMostIsLexicographic` | internal/analyzer/detector/anomaly_detector.go:311 | the order is the lexicographic one |
| `ExchangeSort.SortedOrderIsUnique` | internal/analyzer/detector/anomaly_detector.go:306-316 | with distinct SUPIs there is only one such order |
| `RiskScoring.DefaultsOrderThresholdsExactly` | internal/analyzer/scorer/risk_scorer.go:61-82 | the constructor's defaults establish 0 < unblock < block <= max exactly under a condition on the configured values |
| `RiskScoring.DefaultsMayCrossThresholds` | internal/analyzer/scorer/risk_scorer.go:65-70 | an input on which they do not: block 30 and unblock 40 become block 30 and unblock 50 |
| `RiskScoring.StepsArePositive` | internal/analyzer/scorer/risk_scorer.go:61-86 | whatever the configuration, maximum, thresholds and both steps are positive after the defaults |
| `RiskScoring.ValidConfigIsKept` | internal/analyzer/scorer/risk_scorer.go:61-82 | a valid configuration is kept as it is |
| `RiskScoring.EmptyConfigGetsDefaults` | internal/analyzer/scorer/risk_scorer.go:61-82 | one with nothing set becomes 100, 80, 50, 0.7, 2, 20, 1 |
| `RiskScoring.StepsFillAndEmpty` | internal/analyzer/scorer/risk_scorer.go:84-86 | HitsToBan charges are exactly the maximum, and so is the leak of SecondsToForgive seconds |
| `RiskScoring.ScoreInRange` | internal/analyzer/scorer/risk_scorer.go:146-166 | the score stays in [0, MaxScore] over every run |
| `RiskScoring.ScoreIsCusum` | internal/analyzer/scorer/risk_scorer.go:146-166 | closed form with the cap: after any run from 0 the score is the largest, over all starting points, of the smaller of the gain since then and the ceiling the cap allows; time running backwards counts as none |
| `RiskScoring.CusumIsUnique` | internal/analyzer/scorer/risk_scorer.go:146-166 | the closed form determines the score |
| `RiskScoring.UncappedScore` | internal/analyzer/scorer/risk_scorer.go:146-166 | when the cap never fired, the score is the largest of attackStep times attacks minus decayStep times elapsed time over all suffixes |
| `RiskScoring.GainInUnits` | internal/analyzer/scorer/risk_scorer.go:84-86 | the gain of a stretch, and the ceiling the cap allows it, in attackStep per attack and decayStep per second |
| `RiskScoring.BlockedExactlyAfterBurst` | internal/analyzer/scorer/risk_scorer.go:146-184 | from a clean start and with the block threshold within the maximum, a UE is blocked at some moment if and only if some stretch of its history gained the block threshold, cap or no cap |
| `RiskScoring.BlockedNeedsBurst` | internal/analyzer/scorer/risk_scorer.go:173-178 | without that condition: a UE is blocked only if some stretch of its history gained the block threshold |
| `RiskScoring.BlockedNowExactly` | internal/analyzer/scorer/risk_scorer.go:171-184 | with unblock <= block, a UE is blocked now if and only if its score once reached the block threshold and has not been below the unblock threshold since |
| `RiskScoring.AttackCountExact` | internal/analyzer/scorer/risk_scorer.go:159-163 | the attack counter grows by the number of observations at or above the cutoff |
| `RiskScoring.BlockedSinceExact` | internal/analyzer/scorer/risk_scorer.go:173-183 | blockedSince is 0 while normal, and else the time of the observation that blocked the UE and since which it has been blocked |
| `RiskScoring.ElapsedIsDifference` | internal/analyzer/scorer/risk_scorer.go:146-152 | with nondecreasing timestamps the elapsed time is the difference of timestamps |
| `RiskLaws.HysteresisExactly` | internal/analyzer/scorer/risk_scorer.go:171-184 | after an update, whatever the state before, BLOCKED implies score >= unblock and NORMAL implies score < block if and only if the new score is not at least block and yet below unblock |
| `RiskLaws.OrderedThresholdsKeepHysteresis` | internal/analyzer/scorer/risk_scorer.go:171-184 | with unblock <= block that holds after every observation of every run |
| `RiskLaws.CrossedThresholdsLoseHysteresis` | internal/analyzer/scorer/risk_scorer.go:65-70 | with block 30 and unblock 40 configured, an attack and a quiet second leave a new UE unblocked at score 45 |
| `RiskLaws.CrossedThresholdsMayKeepHysteresis` | internal/analyzer/scorer/risk_scorer.go:65-70 | crossed thresholds need not do harm: with one hit and one second every run keeps the hysteresis |
| `RiskLaws.UnreachableThresholdNeverBlocks` | internal/analyzer/scorer/risk_scorer.go:65-67 | a block threshold above the maximum, which the defaults can produce, never blocks anybody |
| `RiskLaws.FlappingBound` | internal/analyzer/scorer/risk_scorer.go:146-184 | with unblock < block, in any run that does not start BLOCKED below the block threshold, the releases are at most elapsed time times decayStep over the threshold gap |
| `RiskLaws.BlockedPeriodLasts` | internal/analyzer/scorer/risk_scorer.go:171-184 | each blocked period lasts longer than the gap takes to leak out |
| `RiskLaws.ReblockNeedsAttacks` | internal/analyzer/scorer/risk_scorer.go:171-184 | each re-block needs attacks worth more than the gap |
| `RiskLaws.QuietComposes` | internal/analyzer/scorer/risk_scorer.go:146-152 | attack-free observations leave what one wait of the whole time would leave |
| `RiskLaws.ForgivenInTime` | internal/analyzer/scorer/risk_scorer.go:84-86 | SecondsToForgive quiet seconds, in any number of observations, bring any score to 0 and NORMAL |
| `RiskLaws.HitsToBanExactly` | internal/analyzer/scorer/risk_scorer.go:84-86 | HitsToBan attacks in a row, with any pauses, on a clean UE and any configuration: some hit blocks it if and only if some run of consecutive hits, one charge each less what leaks out in between, is worth the block threshold |
| `RiskLaws.SustainedHitsToBanExactly` | internal/analyzer/scorer/risk_scorer.go:84-86 | when no pause leaks more than one charge and unblock <= block, the UE ends up blocked if and only if what leaks out between the hits is at most maximum minus block threshold |
| `RiskLaws.MoreAttacksDominate` | internal/analyzer/scorer/risk_scorer.go:146-189 | with unblock <= block and equal times, attacks at more positions, or a lower cutoff, give at least the score and at least the status |
| `RiskLaws.CrossedThresholdsLoseDominance` | internal/analyzer/scorer/risk_scorer.go:171-184 | with unblock above block the higher score can be released by the update that blocks the lower one |
| `RiskLaws.EachUeRunsAlone` | internal/analyzer/scorer/risk_scorer.go:105-140 | a UE's state depends on its own observations alone |
| `RiskLaws.OrderAcrossUesIsIrrelevant` | internal/analyzer/scorer/risk_scorer.go:105-122 | runs in which each UE sees the same observations end in the same table |
| `RiskLaws.BatchOrderIsIrrelevant` | internal/analyzer/scorer/risk_scorer.go:105-122 | a batch of distinct UEs ends in the same table in any order |
| `RiskScorer.RiskScorer.constructor` | internal/analyzer/scorer/risk_scorer.go:59-101 | validates the configuration in place and starts with an empty table and positive steps |
| `RiskScorer.RiskScorer.UpdateState` | internal/analyzer/scorer/risk_scorer.go:146-189 | the in-place update is the update function, field by field |
| `RiskScorer.RiskScorer.ProcessOneUE` | internal/analyzer/scorer/risk_scorer.go:124-204 | the table changes at the UE's key only, by one update from its old or a fresh state; the output carries the result, the new score and status, isBlocked exactly if the new status is BLOCKED, attackDetected exactly if the anomaly score reaches the cutoff |
| `RiskScorer.RiskScorer.ProcessInferenceResults` | internal/analyzer/scorer/risk_scorer.go:105-122 | the table after a batch is the fold of its results; output i carries result i, and with distinct SUPIs shows score, status and isBlocked as the final table has them |
| `RiskScorer.RiskScorer.ResetUE` | internal/analyzer/scorer/risk_scorer.go:255-275 | an existing UE gets score 0, NORMAL, no attacks, not blocked, updated now; nobody else changes, and a missing one is reported |
| `RiskScorer.RiskScorer.GetUEState` | internal/analyzer/scorer/risk_scorer.go:207-230 | a copy of the UE's state, or not found |
| `Pipeline.BatchEffect` | internal/analyzer/detector/anomaly_detector.go:121-224 | a batch under any schedule updates each of its UEs exactly once with the expected score and leaves all others as they were |
| `Pipeline.NoUplinkNoCharge` | internal/analyzer/detector/anomaly_detector.go:142-156 | a UE without uplink packets in the window is never charged, whatever the LLM would answer and however the scorer is configured |
| `Pipeline.FailOpenExactly` | internal/analyzer/detector/anomaly_detector.go:178-182 | a failed request counts as an attack if and only if the configured cutoff is above 0 and at most 0.1 |
| `Pipeline.QuietNeverBlocks` | internal/analyzer/scorer/risk_scorer.go:146-184 | observations that are no attacks never raise the score of a UE that is NORMAL below the block threshold, and never block it |
| `WorkQueue.RunInv` | internal/analyzer/queue/base_queue.go:108-175 | for any interleaving of producers, workers, stop and cancellation: accepted = dequeued + buffered in order, dequeued = handled + in hand, and without a cancellation all workers gone means the last one found the queue empty after the close |
| `WorkQueue.StopDrains` | internal/analyzer/queue/base_queue.go:79-100 | with a live context, when Stop returns nil the handled messages are exactly a prefix of the accepted ones that contains all accepted before stopChan closed; the rest is still buffered and was accepted after the last worker found the queue empty |
| `WorkQueue.StopDrainsExactly` | internal/analyzer/queue/base_queue.go:128-136 | on every schedule, cancellations at any time included, Stop drains all messages accepted so far if and only if the buffer is empty when it starts |
| `WorkQueue.StopDrainsUnlessCancelledLater` | internal/analyzer/queue/base_queue.go:128-136 | on every schedule in which no cancellation follows the close, Stop drains if and only if the context is live or the buffer is empty when it starts |
| `WorkQueue.CancelledStopMayDropAll` | internal/analyzer/queue/base_queue.go:129-132 | after a cancellation some schedule of Stop drops every buffered message |
| `WorkQueue.AcceptedHistory` | internal/analyzer/queue/base_queue.go:107-120 | the accepted messages are those of the enqueue calls that returned nil, in order |
| `WorkQueue.EnqueueOutcomes` | internal/analyzer/queue/base_queue.go:107-120 | Enqueue never blocks: "queue full" exactly when the buffer is full and the queue not stopping; with room and stopping, either of the other two |
| `WorkQueue.WorkerOutcomes` | internal/analyzer/queue/base_queue.go:128-144 | a worker at its select can take exactly the ready cases, and a draining one leaves exactly when nothing is buffered |
| `WorkQueue.WorkersRunDown` | internal/analyzer/queue/base_queue.go:122-175 | with no further accepts the workers take at most a computable number of steps |
| `WorkQueue.StopCanReturn` | internal/analyzer/queue/base_queue.go:79-100 | from any state after the close Stop can still return |
| `WorkQueue.SomeWorkerMoves` | internal/analyzer/queue/base_queue.go:122-175 | after the close, as long as a worker is left, some worker can move: no deadlock |
| `WorkQueue.DrainAloneHandlesAll` | internal/analyzer/queue/base_queue.go:156-175 | one worker draining alone handles the whole buffer in order |
| `BaseQueue.BaseQueue.constructor` | internal/analyzer/queue/base_queue.go:44-60 | buffer size and worker count with their defaults, no worker yet, nothing accepted |
| `BaseQueue.BaseQueue.Enqueue` | internal/analyzer/queue/base_queue.go:107-120 | each outcome is an enabled step of the queue: accepted at the end, refused because full, or refused because stopping |
| `BaseQueue.BaseQueue.WorkerSelect` | internal/analyzer/queue/base_queue.go:128-144 | every choice of the worker's select is an enabled step |
| `BaseQueue.BaseQueue.DrainSelect` | internal/analyzer/queue/base_queue.go:160-174 | a draining worker takes the next message or leaves when there is none |
| `BaseQueue.BaseQueue.DrainQueue` | internal/analyzer/queue/base_queue.go:156-175 | undisturbed, the drain loop handles everything buffered, in order, and the worker leaves |
| `BaseQueue.BaseQueue.CloseStopChan` | internal/analyzer/queue/base_queue.go:83 | closing stopChan is the step that marks which messages were accepted before |
| `BaseQueue.BaseQueue.AwaitWorkers` | internal/analyzer/queue/base_queue.go:85-99 | Stop returns nil only when all workers have left; on a timeout nothing changes |
| `Lifecycle.LifecycleManager.StopAll` | pkg/app/lifecycle.go:65-101 | every component is stopped once, in reverse order of registration |
| `Lifecycle.LifecycleManager.StartAll` | pkg/app/lifecycle.go:48-63 | components start in order up to the first failure, after which all registered ones are stopped in reverse |
| `Lifecycle.StopsOfGroups` | pkg/app/lifecycle.go:74-98 | of two groups registered one after the other, the later group is stopped first, each in reverse |
| `Lifecycle.LaterRegisteredStopsEarlier` | pkg/app/lifecycle.go:74-98 | of any two components the one registered later is stopped earlier |
| `Lifecycle.LifecycleManager.Shutdown` | pkg/app/lifecycle.go:103-108 | cancels, then stops all in reverse |
| `TwoStageShutdown.StagesFollowRegistration` | pkg/service/init.go:337-377 | with the export queue registered before the detector, among any other components, the reverse stop order makes exactly the stop steps of every completed run of the two queues, in their order |
| `TwoStageShutdown.NoResultIsLost` | internal/analyzer/detector/anomaly_detector.go:347-366 | with the detector stopped before the export queue, no timeout and no cancellation: when both stops have returned, every result of every batch accepted before the detector's stop has been handled by an exporter or was refused as "queue full"; none is refused as "shutting down" |
| `TwoStageShutdown.EveryRecordIsAccountedFor` | internal/analyzer/detector/anomaly_detector.go:219-290 | record by record: the result of each UE of each batch accepted in time was handled by an exporter or refused as "queue full" |
| `TwoStageShutdown.ShutdownCanComplete` | pkg/app/lifecycle.go:74-98 | no deadlock: from every state satisfying the invariant the two-stage shutdown can be carried to the end |
| `TwoStageShutdown.RunGood` | pkg/app/lifecycle.go:74-98 | the invariant of both queues together over any interleaving: results produced = pending + accepted + refused, and the export queue closes only after the detector has returned |

## Left out

- Integer widths: the counters are unbounded; the wrap-around of the 64-bit counters is not modelled. Timestamps and attack counts of the scorer likewise.
- Floating point: features, averages and scores are exact reals; rounding to hundredths is modelled, IEEE rounding error is not. `log10` is any function.
- The race in which two CPUs both miss a UE entry and both insert one: `MicroSteps` starts from an existing entry, the other modules take a packet as one step. A userspace read of an entry copies it at one moment.
- In `Snapshot` the iterator may skip or repeat keys in any way, but one read runs at a time, as with the one poller.
- Resets of the three byte maps (`ReadAndResetTopStats`): between its deletes the maps are not consistent with each other, so `TopN` states conservation for runs since they were empty.
- A full perf buffer: a TLS event is taken as sent, as the program does.
- Little-endian hosts only: the TCP flags are the byte at offset 13 of the header.
- Wall-clock timeouts of `Stop` and `StopAll`: `BaseQueue.AwaitWorkers` may report one at any moment, the shutdown theorems are about runs without. `AnomalyDetector.Stop` swallows the inner timeout; such runs are not covered by `TwoStageShutdown`.
- The application cancels the context before `StopAll` (pkg/service/init.go:206-240); `TwoStageShutdown` has no cancellation, and `WorkQueue.StopDrainsExactly` and `WorkQueue.CancelledStopMayDropAll` say what can be lost with one.
- `Stop` before `Start`: with no workers nothing is drained; the drain theorems ask for at least one worker.
- In `TwoStageShutdown` the results of one batch are enqueued in the order of its records; no property depends on that order.
- Locks: each method of `RiskScorer` and `Lifecycle` is one step. `GetAllUEStates` and `GetConfig` only copy.
- In `PromptBuilder` the consecutive replacement calls are one loop over the list of (key, value) pairs, in the order of the calls; the rendered values are parameters that hold no brace and some character found in no key, as "%.2f" and "N/A" values do.
- PromptTemplate.ReplaceAllText: asks for a non-empty search text, as placeholders are; on an empty one the program does not terminate (`PromptTemplate.EndsExactly`).
- `processBatch` handing the batch to the two queues: the outcome of either enqueue is only logged.
- The Ethernet and IPv4 outer headers in `Encapsulation` are 14 and 20 bytes; the program does not skip outer IP options, and neither does the model.
- LLM requests, response parsing, HTTP, NRF and SMF clients, exporters, eBPF loading, configuration and logging.
