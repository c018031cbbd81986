# Verified model of the in-vehicle intrusion detection stack

This project models the deterministic core of an automotive intrusion detection system and
proves what it guarantees. Four groups of components are covered.

* **Reassembly in the Ethernet probe.** IP fragments become datagrams and TCP segments become
  byte streams. `Defrag`, `TcpStream` and `TcpTable` say what one call does, on values;
  `IpDefragEngine` and `TcpEngine` are the objects with their buffers, interval sets, recency
  list and memory account, proved to do exactly that. `DefragRuns`, `FragmentEndToEnd`,
  `FragmentEndToEndV6`, `TcpTheorems`, `TcpFaithful` and `TcpEndToEnd` are about whole runs, and
  `DefragTraffic`, `TcpCalm` and `TcpTraffic` tell from the traffic alone when nothing is evicted
  and delivery is exact. `TcpRuns` and `TcpExact` hold for a stream within half the sequence
  space; `TcpWindow` carries them to streams of any length, as a window that moves with the
  expected position. `TcpFirstCopy` is about copies of a byte that differ, `TcpGap` about when
  missing bytes are given up. `Packet` and `PacketV6` hold the parts of the frame parser that
  these claims need; `PacketLayout` and `PacketLayoutV6` say in bytes what it reads, `TcpFlow` and
  `DefragOutcomes` which packets belong together, what every call reports and what a sweep leaves.
* **The filter chain of the manager.** `IdsmChain` is reporting mode, block state,
  forward-every-nth, aggregation and threshold, `IdsmManager` the object around them,
  `IdsmFates` which fate every event gets in terms of the configuration, and `IdsmFilters` the
  closed forms over runs.
* **Protocols that survive crashes or run in two threads.** The alert queue (`AlertProtocol`,
  `AlertQueue`, `AlertFifo`), the signed rule switch (`RuleSwitch`, `RuleSwitchSafety`,
  `RuleShortWrites`, `RuleRuns`, `RuleVerdicts`, `RuleManager`), configuration bundles
  (`ConfigSigning`), the snapshot upload (`Snapshot`) and the reporter (`Reporter`). Disk and
  memory are separate, every call to the file system can fail, and a crash can come between any
  two calls.
* **Encodings, indexes and streaming algorithms.** Base64, the bytes that signatures cover
  (`RuleSigning`, `RuleAmbiguity`), the CIDR trie, content matching, matching and framing across chunks
  (`StreamWindow`, `DoipFraming`, `SocketLines`), SHA-256 and MD5 with one published digest each,
  hexadecimal digests, the IDS message (`IdsProtocol`) and the port scan detector.

Time is a parameter. Regions that the program runs under one mutex are one step. Signature
checks, publishing, posting and file system calls are parameters that say how the call ends.

A method is proved to do what a function says, and what that function means is stated apart from
it: over runs, or in the bytes of a frame, the fields of a configuration, the characters of a name
or the examples of a standard.

## What was found not to hold

Each of these is proved. Where a lemma is named as exact, it states both directions; where only
an example is proved, this is said.

* TCP delivery is the longest contiguous prefix in every calm run, for a stream of any length, as
  long as the raw numbers by which the buffer is ordered come in stream order
  (`TcpTheorems.LongestPrefix`). All calm runs are like this exactly when no sequence number wraps
  among the bytes that can be buffered (`TcpFaithful.FaithfulIffNoStraddle`).
* After a FIN delivery stays exact, in all calm continuations, exactly when the stream ends where
  the FIN was taken (`TcpFaithful.FinFaithfulIff`). Data on the opening SYN always loses its first
  byte (`TcpFaithful.SynDataLosesByte`).
* The header comment of `stream_tcp.h` promises that the first copy of a byte wins. What is
  delivered is the copy in the first buffered segment that holds the byte
  (`TcpFirstCopy.DrainDeliversFirst`); a new segment changes none of these exactly when it is
  dominated or agrees wherever it overlaps a segment that does not start earlier
  (`TcpFirstCopy.FirstCopyKeptIff`), or, when it is next in line, agrees wherever it overlaps
  (`TcpFirstCopy.InLineKeptIff`). Two inputs in which the first copy loses are in
  `TcpFirstCopy.FirstCopyLost`.
* A reassembled IPv6 datagram gives the same view as the packet that was sent exactly when the
  part that was fragmented does not begin with a header the parser walks over
  (`FragmentEndToEndV6.SameViewIff`).
* The deadline a sweep returns fails to bound an open threshold window exactly when the sweep
  released an aggregate of the same event into an enabled filter and no other event has as early a
  deadline (`IdsmFilters.OverlookedWindowIff`). Threshold sums wrap at 2^32: the next event passes
  exactly when the wrapped sum has reached the threshold (`IdsmFilters.ThresholdClosedForm`,
  `IdsmFilters.NextPassesIff`).
* The cursor that an open of the alert queue corrects is not written back. A compaction torn
  between truncation and cursor save leaves a queue that can skip a line later on exactly when the
  cursor file then holds a number above 0 (`AlertProtocol.TornIff`). The next open repairs the
  cursor in memory (`AlertProtocol.NextOpenRepairs`); `AlertProtocol.SecondOpenSkips` is an example
  in which the one after that skips a line.
* The rule switch is crash-consistent exactly when the new version is neither the active one nor
  called `current` (`RuleSwitchSafety.SwitchSafeIff`), the stored sequence number is safe exactly
  when the version is not called `max_seq` (`RuleRuns.StoredSeqSafeIff`), the live rules are
  complete exactly when every unchecked write opened its file and wrote all of it
  (`RuleShortWrites.ShortWritesGoLive`), and a bundle reported as rejected is active exactly when
  the calls after the switch failed (`RuleRuns.RejectedYetActive`).
* Another bundle has the signed bytes of a bundle with a valid version name exactly when one of
  its free fields holds, newline included, what separates fields: `target_node=` in the ECU or the
  node, `target_vmodel=` in the node or the vehicle model, or `version=`, `rollback=` and
  `target_ecu=` lines in the tenant or the ECU (`RuleAmbiguity.AmbiguousIff`).
* The signature of a configuration bundle fixes what is written exactly when no name is given two
  contents (`ConfigSigning.OutcomeSigned`).
* `depth` without `offset`, and `within` or `depth` that fall short of `distance` or `offset`, can
  put the end of a search before its beginning, and the unsigned difference of the two wraps. The
  search then reaches past the buffer (`RuleMatch.OverrunIff`) and finds what it was not to find or
  leaves the buffer: the outcome is what the content asks for exactly when this is not so
  (`RuleMatch.LookRightIff`). Which options can lead there is exact too
  (`RuleMatch.CanOverrunIff`); `RuleMatch.DepthAlone` is an example of both outcomes.
* Greedy content matching is complete when no `within` follows a content of its buffer
  (`RuleMatch.GreedyComplete`). That it need not be otherwise is shown by one example
  (`RuleMatch.LeftmostCanFail`).
* The 16-bit message size is right exactly up to 65513 or 65521 context bytes
  (`IdsProtocol.SizeRight`).
* A step of the snapshot upload can lose a chunk later on exactly when it is a negative-ack that
  omits a chunk due, or is saved in the middle of a pass that is not going to send one it lists
  (`Snapshot.ForgetIff`); `Snapshot.NackLostInPass` is an example of the latter.
* The socket server reads a connection to its end, however the bytes arrive, exactly when no line
  in it grows beyond 1 MiB (`SocketLines.AllReadIff`).

## Model

| member | source | states |
|---|---|---|
| LruList.Lru.IndexAgrees | apps/eth_probe/ip_defrag.cpp:48-57 | the recency list and its position index name the same keys, each once |
| LruList.Lru.Touch | apps/eth_probe/ip_defrag.cpp:52-57 | a touched key moves to the recent end and the others keep their order |
| LruList.Lru.Remove | apps/eth_probe/stream_tcp.cpp:55-59 | a removed key leaves list and index, the others keep their order |
| LruList.Lru.PopFront | apps/eth_probe/ip_defrag.cpp:59-63 | the least recently touched key is the one taken |
| Intervals.FirstMeetingSplits | apps/eth_probe/ip_defrag.cpp:139-143 | the interval search starts where every earlier interval ends before the range |
| Intervals.CopyUncovered | apps/eth_probe/ip_defrag.cpp:136-154 | the copy loop writes the fragment exactly where no byte was covered |
| Intervals.Merge | apps/eth_probe/ip_defrag.cpp:156-167 | the merged set stays sorted, disjoint and non-adjacent and covers exactly what was covered or is new |
| Intervals.SingleFromZero | apps/eth_probe/ip_defrag.cpp:174-176 | one interval from 0 is the same as covering an initial stretch |
| Defrag.EvictForCountFacts | apps/eth_probe/ip_defrag.cpp:98-102 | eviction for a new entry takes the oldest entries only and stops when there is room |
| Defrag.EvictForMemFacts | apps/eth_probe/ip_defrag.cpp:108-118 | eviction for bytes takes the oldest entries only and never the one being fed |
| Defrag.AddKeeps | apps/eth_probe/ip_defrag.cpp:81-188 | every call keeps both caps and the agreement of table, list and memory account |
| Defrag.ExpireKeeps | apps/eth_probe/ip_defrag.cpp:190-207 | so does every expiry sweep |
| Defrag.SameKeyIff | apps/eth_probe/ip_defrag.cpp:94 | two packets have one key exactly when source, destination, identification, protocol and IP version are equal |
| DefragOutcomes.BringsIff | apps/eth_probe/ip_defrag.cpp:81-92 | an accepted fragment brings the bytes it covers below offset 65535; one that is empty or starts later brings none |
| DefragOutcomes.CountEvictsLeast | apps/eth_probe/ip_defrag.cpp:98-102 | a new entry evicts no more entries than it takes to have a place |
| DefragOutcomes.MemEvictsLeast | apps/eth_probe/ip_defrag.cpp:108-118 | bytes evict the oldest entries, and without the last of them the pool would be too small |
| DefragOutcomes.FedIff | apps/eth_probe/ip_defrag.cpp:104-188 | a fragment that finds room is added to the known bytes, and completes the datagram exactly when nothing is then missing; without room its entry stays as it was |
| DefragOutcomes.EvictedIff | apps/eth_probe/ip_defrag.cpp:98-130 | an eviction is reported exactly when an entry of another datagram had to go |
| DefragOutcomes.SweptIff | apps/eth_probe/ip_defrag.cpp:190-207 | after a sweep exactly the entries touched less than the timeout ago are left, as they were |
| IpDefragEngine.Take | apps/eth_probe/ip_defrag.cpp:136-172 | the interval-set form of one fragment is first-seen-wins on a byte map |
| IpDefragEngine.SingleRangeIsComplete | apps/eth_probe/ip_defrag.cpp:174-178 | the completion test holds exactly when a final fragment came and the known bytes reach its end from 0; the bytes handed over are those |
| IpDefragEngine.IpDefrag.EvictOne | apps/eth_probe/ip_defrag.cpp:59-70 | evicting removes the oldest entry, its list node, index entry and memory charge |
| IpDefragEngine.IpDefrag.AddFragment | apps/eth_probe/ip_defrag.cpp:81-188 | the engine does on its buffers, intervals, list and account what the byte-map meaning says, result included |
| IpDefragEngine.IpDefrag.Expire | apps/eth_probe/ip_defrag.cpp:190-207 | the sweep removes exactly the stale entries and counts them |
| DefragRuns.RoomForOne | apps/eth_probe/ip_defrag.cpp:108-130 | with a pool that admits one datagram no fragment is refused |
| DefragRuns.OtherStep | apps/eth_probe/ip_defrag.cpp:81-207 | a call about another datagram leaves an entry alone or removes it |
| DefragRuns.ReachableWithinCaps | apps/eth_probe/ip_defrag.cpp:42-207 | both caps and the agreement of table and list hold in every reachable state |
| DefragRuns.EntryIsFirstSeen | apps/eth_probe/ip_defrag.cpp:136-172 | over any run the entry holds the first-seen map of all its fragments, conflicting or not |
| DefragRuns.KnownIsFirst | apps/eth_probe/ip_defrag.cpp:136-154 | the byte at an offset is that of the earliest accepted fragment covering it |
| DefragRuns.Reassembles | apps/eth_probe/ip_defrag.cpp:81-188 | any fragmentation in any order, with duplicates and overlaps, delivers exactly the datagram with the call that brings the last byte, and nothing before |
| DefragTraffic.SafeFromEviction | apps/eth_probe/ip_defrag.cpp:98-118 | no datagram is evicted while all under way fit both caps at their full size and no sweep is a timeout late |
| DefragTraffic.ReassemblesAmid | apps/eth_probe/ip_defrag.cpp:81-207 | so among such traffic any honest fragmentation delivers exactly the datagram |
| FragmentEndToEnd.ParsedFragment | apps/eth_probe/packet.cpp:86-112 | the parser turns an IPv4 fragment into its key, offset, flag and bytes of the datagram |
| FragmentEndToEnd.Key4Iff | apps/eth_probe/ip_defrag.cpp:94 | two IPv4 frames have one key exactly when bytes 4 to 5, 9 and 12 to 19 are equal: identification, protocol and addresses |
| FragmentEndToEnd.SameEntryIff | apps/eth_probe/ip_defrag.cpp:94-106 | so fragments in two IPv4 frames feed one entry exactly when these bytes are equal |
| PacketLayout.TcpRoundTrip | apps/eth_probe/packet.cpp:52-63 | of a TCP header laid out as section 3.1 of RFC 9293 says, ports, numbers, flags and, behind the options, the payload are read back |
| PacketLayout.UdpRoundTrip | apps/eth_probe/packet.cpp:64-72 | of a UDP header the ports are read back, and the payload by its length unless that cannot be right |
| PacketLayout.IcmpRoundTrip | apps/eth_probe/packet.cpp:73-79 | type and code of an ICMP message stand where ports would |
| PacketLayout.TruncatedIff | apps/eth_probe/packet.cpp:51-84 | an L4 header is cut off exactly when the bytes are too few or the TCP data offset points into the header or past the end |
| PacketLayout.Ipv4RoundTrip | apps/eth_probe/packet.cpp:86-112 | of an IPv4 header laid out as section 3.1 of RFC 791 says, every field used is read back, and the payload without padding |
| PacketLayout.Refused4Iff | apps/eth_probe/packet.cpp:87-94 | a packet is not taken for IPv4 exactly when it is too short, of another version, or its header length is below 20 bytes, past the end or above the total length |
| PacketLayoutV6.WalkChain | apps/eth_probe/packet.cpp:123-155 | the walk goes over every extension header, up to eight, and ends where they end |
| PacketLayoutV6.Ipv6RoundTrip | apps/eth_probe/packet.cpp:114-162 | of an IPv6 packet with up to eight extension headers the addresses, the last protocol and its fields are read back |
| PacketLayoutV6.FragmentRoundTrip | apps/eth_probe/packet.cpp:140-160 | of an IPv6 fragment the identification, offset, flag and data are read back too |
| PacketLayoutV6.CutOff | apps/eth_probe/packet.cpp:125-141 | of a packet that ends within an extension or fragment header only the addresses are seen |
| FragmentEndToEnd.WireToWire | apps/eth_probe/pipeline.cpp:43-57 | the packet rebuilt from IPv4 fragments, told apart by bytes of their frames, has the addresses and protocol in the header sent and the ports, numbers, flags and payload that stand in the bytes sent |
| PacketV6.SkipExtensions | apps/eth_probe/packet.cpp:123-155 | the extension header loop ends where the walk of at most eight headers ends, or is cut short |
| PacketV6.WalkOn | apps/eth_probe/packet.cpp:123-155 | the walk from the first header is the walk from any header it reaches, with fewer hops left |
| FragmentEndToEndV6.ParsedFragment6 | apps/eth_probe/packet.cpp:114-162 | the parser turns an IPv6 fragment into its key, offset, flag and bytes |
| FragmentEndToEndV6.WireToWire6 | apps/eth_probe/pipeline.cpp:43-57 | the packet rebuilt from IPv6 fragments has the addresses and all bytes of the fragmented part |
| FragmentEndToEndV6.SameViewIff | apps/eth_probe/packet.cpp:197-199 | it is the view of the packet sent exactly when that part begins with no header the parser walks over |
| TcpRuns.SeqOrder | apps/eth_probe/stream_tcp.cpp:12-14 | wrapped comparison is the order of positions within half the sequence space |
| TcpRuns.SegmentIncreasing | apps/eth_probe/stream_tcp.cpp:129-213 | one segment of a stream shorter than 2^31 - 1 bytes, whatever caps, clock and buffer do, delivers slices further on in the stream |
| TcpExact.StoreClimbs | apps/eth_probe/stream_tcp.cpp:153-180 | buffering keeps stream order and adds exactly the bytes of the segment, when the raw numbers of what is buffered and of the segment come in stream order |
| TcpExact.DrainExact | apps/eth_probe/stream_tcp.cpp:184-205 | draining delivers exactly the buffered bytes that have become contiguous |
| TcpWindow.DataNear | apps/eth_probe/stream_tcp.cpp:129-206 | in a stream of any length one segment delivers its bytes from the expected position and then what has become contiguous; without refusal or expired gap every byte is accounted for |
| TcpWindow.FinNear | apps/eth_probe/stream_tcp.cpp:208-212 | a FIN counts as one position, and what is buffered stays where it is |
| TcpTheorems.NothingTwice | apps/eth_probe/stream_tcp.cpp:71-218 | over any run of a stream shorter than 2^31 - 1 bytes, gap skips and wraps included, delivered bytes are stream slices at strictly increasing positions |
| TcpTheorems.NothingTwiceNear | apps/eth_probe/stream_tcp.cpp:71-218 | the same for a stream of any length, while segments are within 2^31 bytes of the expected position and raw numbers come in stream order |
| TcpTheorems.LongestPrefix | apps/eth_probe/stream_tcp.cpp:117-206 | in a stream of any length, at every moment of a calm run, the bytes delivered are the longest contiguous prefix of what was buffered and received |
| TcpFaithful.FaithfulIffNoStraddle | apps/eth_probe/stream_tcp.cpp:153-180 | all calm runs from a position on deliver that prefix exactly when no sequence number wraps among the bytes that can be buffered from there on |
| TcpFaithful.FinFaithfulIff | apps/eth_probe/stream_tcp.cpp:208-212 | after a FIN all calm continuations deliver the longest contiguous prefix exactly when the stream ends at the position the FIN was taken at |
| TcpTheorems.EarlyFinLosesByte | apps/eth_probe/stream_tcp.cpp:208-212 | after a FIN the byte at its position is never delivered, in any run of a stream shorter than 2^31 - 1 bytes |
| TcpFaithful.SynDataLosesByte | apps/eth_probe/stream_tcp.cpp:117-122 | data on the opening SYN is delivered without its first byte |
| TcpFaithful.FirstSegment | apps/eth_probe/stream_tcp.cpp:117-144 | the first segment of a direction sets where it starts: with or without a SYN all its bytes are delivered, less one for a SYN |
| TcpFirstCopy.DrainDeliversFirst | apps/eth_probe/stream_tcp.cpp:191-205 | draining delivers at each position the copy in the first buffered segment that holds it, up to the first position without one |
| TcpFirstCopy.FirstCopyKeptIff | apps/eth_probe/stream_tcp.cpp:153-180 | buffering a segment changes no byte that was to be delivered exactly when it is dominated or agrees wherever it overlaps a segment that does not start earlier |
| TcpFirstCopy.InLineDelivers | apps/eth_probe/stream_tcp.cpp:136-205 | a segment next in line, trimmed or not, delivers its new bytes and then the first buffered copies: from the next position, or, past a hole whose timeout has run, from the first buffered position; the rest stays as it was |
| TcpFirstCopy.InLineKeptIff | apps/eth_probe/stream_tcp.cpp:136-205 | of what was to be delivered nothing changes exactly when its new bytes agree with what is buffered |
| TcpFirstCopy.FirstCopyLost | apps/eth_probe/stream_tcp.cpp:153-180 | two inputs in which the copy that came first is not delivered |
| TcpGap.AsideDelivers | apps/eth_probe/stream_tcp.cpp:183-205 | a segment not next in line delivers nothing until gap_timeout after the first one buffered; then the hole before the first buffered position is given up and the first copies from there are delivered |
| TcpTable.ReplySharesFlow | apps/eth_probe/stream_tcp.cpp:76-93 | a packet and its reply fall into one flow, in opposite directions unless both ends are the same |
| TcpFlow.SameFlowIff | apps/eth_probe/stream_tcp.cpp:76-91 | two packets share a flow exactly when they go between the same two endpoints, whichever way |
| TcpFlow.SameWayIff | apps/eth_probe/stream_tcp.cpp:78-93 | in a flow, packets from one endpoint go one way and those from the other the other way |
| TcpFlow.FlagBits | apps/eth_probe/stream_tcp.cpp:110-128 | FIN, SYN and RST are the lowest three bits of the flags, in this order |
| TcpFlow.ResetEnds | apps/eth_probe/stream_tcp.cpp:109-115 | a reset ends its flow at once and delivers nothing |
| TcpFlow.ClosedIff | apps/eth_probe/stream_tcp.cpp:208-216 | another segment closes its flow exactly when a FIN has then come from both sides; else the flow is the last to be evicted |
| TcpFlow.HasDataIff | apps/eth_probe/stream_tcp.cpp:136-197 | the call says that it delivers exactly when it does |
| TcpFlow.EvictedIff | apps/eth_probe/stream_tcp.cpp:95-181 | an eviction is reported exactly when another flow had to go or a segment ahead of its stream found no room |
| TcpFlow.EvictsIff | apps/eth_probe/stream_tcp.cpp:95-102 | a new flow evicts no more flows than it has to |
| TcpFlow.SweptIff | apps/eth_probe/stream_tcp.cpp:220-233 | after a sweep exactly the flows seen less than the idle timeout ago are left, as they were |
| TcpTable.EvictLinked | apps/eth_probe/stream_tcp.cpp:95-102 | eviction takes the least recently used flows, spares the one being fed and stops when there is room |
| TcpTable.AddKeeps | apps/eth_probe/stream_tcp.cpp:71-218 | every call keeps both caps and the agreement of table, list and memory account, for any segment |
| TcpTable.ExpireKeeps | apps/eth_probe/stream_tcp.cpp:220-233 | so does every expiry sweep |
| TcpTable.AddOwn | apps/eth_probe/stream_tcp.cpp:104-206 | the direction a segment belongs to takes the stream step and the other direction stays |
| TcpTable.AddOther | apps/eth_probe/stream_tcp.cpp:95-106 | a segment of another flow leaves a flow alone, unless capacity evicts it |
| TcpEngine.TcpReassembly.Buffer | apps/eth_probe/stream_tcp.cpp:150-179 | the buffering code is the ordered-list meaning, and the memory account moves with it |
| TcpEngine.TcpReassembly.DrainBuffer | apps/eth_probe/stream_tcp.cpp:191-205 | so is the drain loop |
| TcpEngine.TcpReassembly.AddSegment | apps/eth_probe/stream_tcp.cpp:71-218 | the engine does on its maps, list and account what the table meaning says, result included |
| TcpEngine.TcpReassembly.Expire | apps/eth_probe/stream_tcp.cpp:220-233 | the sweep removes exactly the idle flows and counts them |
| TcpEndToEnd.ReachableWithinCaps | apps/eth_probe/stream_tcp.cpp:28-233 | both caps and the agreement of table, list and account hold in every reachable state |
| TcpEndToEnd.Projects | apps/eth_probe/stream_tcp.cpp:71-233 | a run of the table, seen from one side of one flow, is a run of the stream meaning, whatever other traffic there is |
| TcpEndToEnd.TableNothingTwice | apps/eth_probe/stream_tcp.cpp:71-233 | amid any other traffic, evictions and sweeps, one side whose stream is shorter than 2^31 - 1 bytes gets stream slices at increasing positions |
| TcpEndToEnd.TableRises | apps/eth_probe/stream_tcp.cpp:71-233 | the same for a stream of any length whose segments keep near and in stream order |
| TcpEndToEnd.SynOpens | apps/eth_probe/stream_tcp.cpp:117-122 | the opening SYN makes its side expect the first byte after it |
| TcpEndToEnd.TableDeliversPrefix | apps/eth_probe/stream_tcp.cpp:71-218 | from any exact state on, in a stream of any length, one side of a flow gets the longest contiguous prefix of what was buffered and received, up to the call that closes the flow |
| TcpTraffic.StaysPresent | apps/eth_probe/stream_tcp.cpp:95-102 | a flow stays in the table while all flows under way fit it, no sweep is late, nothing resets it and one side sends no FIN |
| TcpCalm.MannerlyIsCalm | apps/eth_probe/stream_tcp.cpp:117-212 | a run is calm and in order when its bytes fit the caps, segments come within a gap timeout and half the sequence space, raw numbers come in stream order, and a FIN comes when all is known |
| TcpTraffic.TrafficDeliversPrefix | apps/eth_probe/stream_tcp.cpp:71-233 | so, amid any other traffic that fits the caps, a side whose packets are like that has got the longest contiguous prefix of what was buffered and received |
| IdsmChain.StepConserves | src/IdsM_Manager.cpp:86-258 | one event, sweep or flush accounts for every occurrence of every event ID |
| IdsmChain.Conservation | src/IdsM_Manager.cpp:86-258 | at every reachable state, per event ID: processed occurrences are the dropped, qualified, staged and saturated ones |
| IdsmChain.LostIffSaturates | src/IdsM_Manager.cpp:232-239 | an aggregate loses occurrences exactly when it would exceed 65535 |
| IdsmChain.StepIsolated | src/IdsM_Manager.cpp:129-186 | handling one event ID leaves the filter state of every other as it was |
| IdsmChain.SweepAllAt | src/IdsM_Manager.cpp:89-121 | a sweep treats every event ID by itself |
| IdsmFates.FateIff | src/IdsM_Manager.cpp:125-186 | in configuration fields, exactly when an event is dropped for mode, block state, sampling or threshold, when it waits in aggregation and when it is qualified |
| IdsmFates.Unconfigured | src/IdsM_Manager.cpp:125-258 | with nothing configured every event is qualified unless reporting is off |
| IdsmFates.ReportCarried | src/IdsM_Manager.cpp:138-155 | which configured field reaches which field of the qualified event; the brief modes alone leave the context out |
| IdsmFates.SamplingState | src/IdsM_Manager.cpp:199-213 | what an event changes of the sampling counter, and when; everything reported at all counts as having occurred |
| IdsmFates.ThresholdState | src/IdsM_Manager.cpp:242-258 | what an event changes of the threshold window, and when |
| IdsmFates.SweepIff | src/IdsM_Manager.cpp:89-121 | an aggregate leaves in the first sweep at or after the end of its window, a threshold window closes at its end unless an aggregate was released |
| IdsmFates.FlushIff | src/IdsM_Manager.cpp:423-441 | a flush releases a staged aggregate at once, and changes nothing else |
| IdsmFilters.NthExact | src/IdsM_Manager.cpp:199-213 | after a forwarded event the next one forwarded is the first whose occurrences since then reach n |
| IdsmFilters.NthUnit | src/IdsM_Manager.cpp:199-213 | with unit counts event j is forwarded exactly when j mod n is 0, counting from 0 |
| IdsmFilters.AggregateClosedForm | src/IdsM_Manager.cpp:215-240 | an aggregate is its first event with the saturated sum of all counts, in a window opened by that event |
| IdsmFilters.ThresholdClosedForm | src/IdsM_Manager.cpp:242-258 | inside a window an event passes exactly when the 32-bit sum so far has reached the threshold |
| IdsmFilters.ThresholdMonotone | src/IdsM_Manager.cpp:242-258 | once reached, the threshold stays reached inside the window while the sum fits 32 bits |
| IdsmFilters.NextPassesIff | src/IdsM_Manager.cpp:256-257 | after a pass the next event passes unless the sum wraps below the threshold |
| IdsmFilters.SweepClears | src/IdsM_Manager.cpp:86-123 | after a sweep no staged aggregate is due |
| IdsmFilters.DeadlineBounds | src/IdsM_Manager.cpp:107-118 | the returned deadline bounds every staged aggregate and every window looked at |
| IdsmFilters.OverlookedWindowIff | src/IdsM_Manager.cpp:89-121 | after a sweep of any list the deadline returned fails to bound an open threshold window of an event exactly when the sweep released an aggregate of it into an enabled filter and the other events have no deadline or only later ones |
| IdsmFilters.ReleasedLeavesDeadline | src/IdsM_Manager.cpp:89-121 | the deadline reported is then that of the other events alone |
| IdsmManager.IdsmManager.ReportSecurityEvent | src/IdsM_Manager.cpp:353-382 | an event is queued with count at least 1 and its pending counter goes up; unknown IDs change nothing |
| IdsmManager.IdsmManager.IsBlocked | src/IdsM_Manager.cpp:188-197 | the block state loop finds whether the current state is listed |
| IdsmManager.IdsmManager.ProcessEvent | src/IdsM_Manager.cpp:125-186 | one event moves the state as the chain says, and counters and sinks follow its fate |
| IdsmManager.CountIff | src/IdsM_Manager.cpp:125-186 | which counter goes up for which fate, and which sink an event is handed to |
| IdsmManager.IdsmManager.ExpireWindows | src/IdsM_Manager.cpp:86-123 | the sweep loop moves the state as the chain says, hands what is released to the sinks configured and counts it, and returns the earliest deadline looked at |
| IdsmManager.IdsmManager.FlushEvents | src/IdsM_Manager.cpp:423-441 | a flush releases the staged aggregate through the threshold filter |
| IdsmManager.IdsmManager.Drain | src/IdsM_Manager.cpp:55-63 | draining empties the queue in order and clears every pending counter |
| AlertLines.ReadPosition | linux/idsm_managerd/alert_queue.cpp:75-81 | the cursor follows the bytes read exactly when no line holds a NUL |
| AlertLines.ReadLines | linux/idsm_managerd/alert_queue.cpp:60-86 | what is read are the lines of the stretch, up to a line boundary or the end of the file |
| AlertProtocol.StepSafe | linux/idsm_managerd/alert_queue.cpp:15-141 | every allowed step, failures and crashes included, keeps the no-skip invariant |
| AlertProtocol.RunSafe | linux/idsm_managerd/alert_queue.cpp:15-141 | over every run in which no open believes a stale cursor, nothing before the cursor is unreturned |
| AlertProtocol.TornIff | linux/idsm_managerd/alert_queue.cpp:88-141 | a compaction torn between truncation and cursor save can make the queue skip a line later on exactly when the cursor file then holds a number above 0 |
| AlertProtocol.AtomicCompactionSafe | linux/idsm_managerd/alert_queue.cpp:88-141 | with truncation and cursor save as one step no open is ever misled, whatever else fails |
| AlertProtocol.NextOpenRepairs | linux/idsm_managerd/alert_queue.cpp:28-33 | a crash right after truncation is repaired by the next open |
| AlertProtocol.SecondOpenSkips | linux/idsm_managerd/alert_queue.cpp:28-33 | the repair is in memory only: a run in which the open after that skips a line never returned |
| AlertProtocol.CursorOnBoundary | linux/idsm_managerd/alert_queue.cpp:60-99 | without torn writes the cursor, in memory and on disk, is always on a line boundary |
| AlertProtocol.AckedLineWasReturned | linux/idsm_managerd/alert_queue.cpp:60-99 | every acknowledged line was returned, whole, by some pending call |
| AlertQueue.ReadOn | linux/idsm_managerd/alert_queue.cpp:72-81 | the read loop yields the lines and the position of the reading meaning |
| AlertQueue.AlertQueue.Append | linux/idsm_managerd/alert_queue.cpp:45-58 | an append stores the line with its newline, or part of it when the write fails |
| AlertQueue.AlertQueue.Pending | linux/idsm_managerd/alert_queue.cpp:60-86 | pending returns the next lines and remembers where they end |
| AlertQueue.AlertQueue.Open | linux/idsm_managerd/alert_queue.cpp:15-35 | an open loads the cursor and corrects it when the file is shorter; the end of the last batch is left as it was |
| AlertQueue.AlertQueue.MarkUploaded | linux/idsm_managerd/alert_queue.cpp:88-99 | acknowledging is the steps mark, save, compact and save of the protocol, on an open queue and a closed one |
| AlertQueue.PendingAdvances | linux/idsm_managerd/alert_queue.cpp:75-81 | while there is something past the cursor, pending moves on |
| AlertFifo.LinesOfText | linux/idsm_managerd/alert_queue.cpp:60-86 | the lines of a text are its lines that are not empty, in order |
| AlertFifo.OpIsFifo | linux/idsm_managerd/alert_queue.cpp:45-99 | every append, fetch and acknowledgement is that of a first-in first-out list, whatever saves and truncations fail; a fetch returns the first lines waiting, at most as many as asked for |
| AlertFifo.RunIsFifo | linux/idsm_managerd/alert_queue.cpp:45-141 | so over every run without a crash the lines acknowledged, then those waiting, are the lines stored: none lost, none twice, in order |
| AlertFifo.RestartRepeats | linux/idsm_managerd/alert_queue.cpp:15-35 | a restart goes on at the saved cursor: with the lines acknowledged since, once more, and then those that were waiting |
| SocketLines.TakeLines | linux/idsm_managerd/socket_server.cpp:106-111 | the splitting loop yields the finished non-empty lines and leaves what follows the last newline |
| SocketLines.HandleConnection | linux/idsm_managerd/socket_server.cpp:96-117 | a connection delivers the non-empty lines of the bytes read, until an unfinished line is too long |
| SocketLines.AllReadIff | linux/idsm_managerd/socket_server.cpp:102-117 | all of a stream is read, however it arrives, exactly when no line in it grows beyond 1 MiB |
| Base64.DecodeEncode | linux/idsm_managerd/base64.h:12-62 | decoding gives back what was encoded |
| Base64.EncodeDecode | linux/idsm_managerd/base64.h:34-62 | an accepted text without pads is the encoding of its bytes |
| Base64.EncodeShape | linux/idsm_managerd/base64.h:12-28 | four characters for every three bytes begun, none of them a line break |
| Base64.GlyphInTable | linux/idsm_managerd/base64.h:13-14 | the 64 characters are those of table 1 of RFC 4648, in its order |
| Base64.TestVectors | linux/idsm_managerd/base64.h:12-28 | the encodings are those of the examples in section 10 of RFC 4648 |
| Base64.EncodeBytes | linux/idsm_managerd/base64.h:12-28 | the encoding loop computes the group-wise encoding |
| Base64.DecodeString | linux/idsm_managerd/base64.h:34-62 | the decoding loop computes the group-wise decoding and refuses the rest |
| CanonicalText.DecInjective | linux/idsm_managerd/rule_manager.cpp:402-411 | decimal numbers are told apart by their text |
| CanonicalText.DecReads | linux/idsm_managerd/rule_manager.cpp:402-411 | decimal text reads as its number and has no leading zero |
| CanonicalText.LeqIff | linux/idsm_managerd/rule_manager.cpp:186 | lines are ordered by the first character in which they differ, a beginning before what goes on |
| CanonicalText.SortedUnique | linux/idsm_managerd/rule_manager.cpp:186 | there is one sorted arrangement of the lines, whatever the sorting algorithm |
| RuleSigning.BuildCanonicalBytes | linux/idsm_managerd/rule_manager.cpp:393-416 | the text is built line by line as the signed format says, for both kinds of bundle |
| RuleSigning.HeaderText | linux/idsm_managerd/rule_manager.cpp:401-411 | the ten header lines, with their names, in their order |
| RuleSigning.PayloadLines | linux/idsm_managerd/rule_manager.cpp:175-186 | the payload is the numbered rule lines, sorted |
| RuleSigning.SignedBytesUnique | linux/idsm_managerd/rule_manager.cpp:393-416 | signed bytes of a bundle with one-line fields are those of no other bundle of either kind |
| RuleSigning.SignedRulesUnique | linux/idsm_managerd/rule_manager.cpp:175-193 | equal signed bytes mean the same header and the same rules in the same order |
| RuleAmbiguity.AmbiguousIff | linux/idsm_managerd/rule_manager.cpp:401-411 | another bundle with a valid version name has the same signed bytes exactly when a free field holds what separates fields, newline included |
| RuleAmbiguity.SameOutside | linux/idsm_managerd/rule_manager.cpp:393-416 | equal signed bytes mean everything but the free fields is equal, and these join to the same text |
| ConfigSigning.SignedItemsUnique | linux/idsm_managerd/config_manager.cpp:187-284 | equal signed bytes mean the same header and the same items, and not their order |
| ConfigSigning.OutcomeSigned | linux/idsm_managerd/config_manager.cpp:336-345 | the signature fixes what is written exactly when no name is given two contents |
| RuleSwitchSafety.SwitchStage | linux/idsm_managerd/rule_manager.cpp:228-266 | after every call the probes see all of the old rules or all of the new, the new once the link is renamed |
| RuleSwitchSafety.SwitchSafe | linux/idsm_managerd/rule_manager.cpp:228-266 | after every call `current` resolves to the old or the complete new rules |
| RuleSwitchSafety.SwitchSafeIff | linux/idsm_managerd/rule_manager.cpp:247-262 | this is so in every environment exactly when the version is neither the active one nor `current` |
| RuleShortWrites.ShortWritesGoLive | linux/idsm_managerd/rule_manager.cpp:235-262 | the live rules are what was written, complete exactly when every file could be opened and no write fell short; nothing notices |
| RuleRuns.StoredSeqSafeIff | linux/idsm_managerd/rule_manager.cpp:247-267 | the stored number never decreases, whatever fails, exactly when the version is not called max_seq |
| RuleRuns.SeqsIncrease | linux/idsm_managerd/rule_manager.cpp:168-173 | over any run, crashes and failures included, numbers used up strictly increase |
| RuleRuns.RejectedYetActive | linux/idsm_managerd/rule_manager.cpp:247-270 | a bundle is rejected with its rules active exactly when both renames of the switch return well and writing the number, renaming it or the reload then fails |
| RuleRuns.AcceptedIsSigned | linux/idsm_managerd/rule_manager.cpp:188-198 | whatever is not rejected is one of the bundles that were signed |
| RuleVerdicts.TargetIff | linux/idsm_managerd/rule_manager.cpp:39-42 | a target "all" in any mix of cases names every device, any other the device of that name up to the case of letters |
| RuleVerdicts.HitIff | linux/idsm_managerd/rule_manager.cpp:209-220 | a bundle hits a device exactly when its ECU and vehicle model name the device's and its node type is "all" or one of the device's |
| RuleVerdicts.VersionIff | linux/idsm_managerd/rule_manager.cpp:44-50 | a version is a word over letters, digits, dot, underscore and hyphen that names no directory above; it holds no path separator |
| RuleVerdicts.PassesIff | linux/idsm_managerd/rule_manager.cpp:89-206 | what is checked before anything is done: number, version, type, rules, time window and signature |
| RuleVerdicts.VerdictIff | linux/idsm_managerd/rule_manager.cpp:89-272 | an expired, future or otherwise unacceptable bundle changes nothing; one for another device only stores its number; one for this device is applied exactly when the checked calls and the reload succeed |
| RuleVerdicts.GoodBundleApplies | linux/idsm_managerd/rule_manager.cpp:209-272 | a bundle that passes all checks and is for all devices, on a file system that works, is applied: its rules are active and its number is stored |
| RuleManager.RuleManager.StoreMaxSeq | linux/idsm_managerd/rule_manager.cpp:361-381 | the number is written aside and renamed into place |
| RuleManager.RuleManager.Switch | linux/idsm_managerd/rule_manager.cpp:228-266 | the switch makes the calls of the installation plan in order and stops at a failing rename |
| RuleManager.RuleManager.TargetHit | linux/idsm_managerd/rule_manager.cpp:209-220 | the target test with its node type loop decides as the target rules say |
| RuleManager.RuleManager.ApplyBundle | linux/idsm_managerd/rule_manager.cpp:89-272 | applying a bundle has the disk and the verdict of the meaning, check by check |
| CidrTrie.Trie.Insert | apps/eth_probe/geoip.cpp:52-61 | inserting adds the leading bits of the address to the stored prefixes, on linked nodes |
| CidrTrie.Lookup | apps/eth_probe/geoip.cpp:63-72 | the pointer walk finds whether some stored prefix leads the address |
| CidrTrie.InsertAll | apps/eth_probe/geoip.cpp:52-61 | a trie filled from a list stores exactly its prefixes |
| CidrTrie.HoldsIffListed | apps/eth_probe/geoip.cpp:63-72 | the trie holds an address exactly when a CIDR of the list contains it |
| CidrTrie.ByteMaskIsCidr | apps/eth_probe/rules.cpp:260-265 | comparing whole bytes and one masked byte is comparing the leading bits |
| CidrTrie.Matches | apps/eth_probe/rules.cpp:256-269 | the matcher decides as its list, `any` and negation say |
| CidrTrie.TrieIsMatcher | apps/eth_probe/geoip.cpp:63-72 | the trie answers as a matcher that is not negated over the same CIDRs |
| RuleMatch.MemFind | apps/eth_probe/rules.cpp:20-36 | the search returns the leftmost match among the bytes it is told of, if any; told of more than there are, it leaves the buffer exactly when there is none |
| RuleMatch.MatchIff | apps/eth_probe/rules.cpp:20-36 | with nocase a pattern matches every text that differs from it only in the case of letters, without it only the same bytes |
| RuleMatch.FitsIff | apps/eth_probe/rules.cpp:477-495 | between which positions a content may lie, by offset, distance, depth and within |
| RuleMatch.ContentMatches | apps/eth_probe/rules.cpp:477-495 | one content is found at its leftmost place between start and limit; where the limit lies before the start, at its leftmost place from start on, or the search leaves the buffer |
| RuleMatch.LookRightIff | apps/eth_probe/rules.cpp:484-489 | that is what the content asks for exactly when the limit does not lie before the start |
| RuleMatch.OverrunIff | apps/eth_probe/rules.cpp:487-491 | the bytes searched reach past the buffer exactly when the limit lies before the start |
| RuleMatch.CanOverrunIff | apps/eth_probe/rules.cpp:353-360 | the contents that some buffer and some earlier match can bring into that state, told from their options |
| RuleMatch.SafeContents | apps/eth_probe/rules.cpp:519-532 | contents whose options cannot lead there never do, in any rule and any buffers |
| RuleMatch.DepthAlone | apps/eth_probe/rules.cpp:484-491 | depth without offset after an earlier match: a match beyond the depth is found, or the search leaves the buffer |
| RuleMatch.ContentsMatch | apps/eth_probe/rules.cpp:519-532 | the content loop with its end position per buffer looks for one content after the other |
| RuleMatch.ChainIsGreedy | apps/eth_probe/rules.cpp:519-532 | where no limit lies before its start, that is greedy matching |
| RuleMatch.GreedyComplete | apps/eth_probe/rules.cpp:519-532 | with no `within` after an earlier content of the same buffer, greedy matching succeeds exactly when positions exist |
| RuleMatch.GreedySound | apps/eth_probe/rules.cpp:519-532 | what greedy matching accepts always has positions, `within` or not |
| RuleMatch.LeftmostCanFail | apps/eth_probe/rules.cpp:484-488 | an example: with such a `within` it fails where positions exist |
| RuleEngine.PortMatches | apps/eth_probe/rules.cpp:271-277 | the port matcher decides as its ranges, `any` and negation say |
| RuleEngine.ProtoIff | apps/eth_probe/rules.cpp:499-548 | which packets a rule for TCP, UDP, ICMP or any protocol asks for |
| RuleEngine.HeaderIff | apps/eth_probe/rules.cpp:499-548 | sources are held against sources and destinations against destinations; a negated matcher fits what is outside its list |
| RuleEngine.MatchRules | apps/eth_probe/rules.cpp:499-548 | the hits are exactly the rules whose header and contents match as the content loop does, in order |
| RuleEngine.HitIffApplies | apps/eth_probe/rules.cpp:499-548 | a rule is hit exactly when it applies, if no limit lies before its start and no `within` follows a content of its buffer; what is hit always applies |
| StreamWindow.RuleTail.Push | apps/eth_probe/pipeline.cpp:200-216 | the window is the retained tail and the new bytes, and the last bytes of the stream are retained |
| StreamWindow.MatchIsSeen | apps/eth_probe/pipeline.cpp:200-216 | every match of the stream lies in the window that completes it |
| StreamWindow.WindowsSeeStream | apps/eth_probe/pipeline.cpp:200-216 | one content hits some window exactly when it hits the whole stream, however it was cut |
| StreamWindow.LongestSeenOnce | apps/eth_probe/pipeline.cpp:209-216 | a match of the longest pattern lies in one window only |
| DoipFraming.CutContinues | apps/eth_probe/pipeline.cpp:235-254 | framing what is left together with what comes next continues the framing |
| DoipFraming.DoipStream.Feed | apps/eth_probe/pipeline.cpp:227-254 | one chunk yields the complete messages and leaves the rest, cut to the cap |
| DoipFraming.FeedAll | apps/eth_probe/pipeline.cpp:227-254 | however a stream is cut, the messages inspected are those of the whole stream when each fits the cap |
| DoipFraming.FramesSent | apps/eth_probe/pipeline.cpp:235-254 | messages with a big-endian length, sent one behind the other, are cut apart again, and an unfinished one is left |
| DoipFraming.Implausible | apps/eth_probe/pipeline.cpp:244-248 | a header that announces more than 16 MiB ends the framing |
| BlockHash.FewestZeros | apps/host_probe/sha256.cpp:102-103 | the padding loop ends with the fewest zeros that leave room for the length |
| Sha256.Schedule | apps/host_probe/sha256.cpp:48-62 | the array of 64 words is the message schedule of section 6.2.2 of FIPS 180-4 |
| Sha256.Compress | apps/host_probe/sha256.cpp:48-80 | one block is the compression of section 6.2.2 |
| Sha256.Context.Update | apps/host_probe/sha256.cpp:82-96 | more bytes extend the message held, however they are cut |
| Sha256.Context.Final | apps/host_probe/sha256.cpp:98-116 | the result is the digest of the message held |
| Sha256.HashFile | apps/host_probe/sha256.cpp:126-142 | a file read in pieces has the digest of its contents, a read error none |
| Sha256Vector.DigestOfAbc | apps/host_probe/sha256.cpp:12-116 | the digest of "abc" is the one published with FIPS 180-4; every constant and rotation enters into it |
| Hex.ToHex | apps/host_probe/sha256.cpp:144-153 | two digits spell each byte |
| Hex.FromHex | apps/host_probe/sha256.cpp:155-170 | parsing succeeds exactly on texts that spell a digest, and gives it |
| Hex.SpellsOne | apps/host_probe/sha256.cpp:155-170 | a text spells one digest only |
| Hex.ValueIff | apps/host_probe/sha256.cpp:158-163 | a character is read as n exactly when it is the n-th hexadecimal digit, in either case |
| Md5.MovedStep | apps/eth_probe/md5.cpp:46-58 | moving the values is naming the registers in turn, as section 3.4 of RFC 1321 does |
| Md5.Transform | apps/eth_probe/md5.cpp:37-63 | one block is the four rounds of section 3.4 |
| Md5.Context.Update | apps/eth_probe/md5.cpp:74-87 | more bytes extend the message held, however they are cut |
| Md5.Context.Final | apps/eth_probe/md5.cpp:93-112 | the result is the digest of the message held |
| Md5.HashChunks | apps/eth_probe/md5.cpp:74-112 | the digest of a message does not depend on how it is cut into updates |
| Md5Vector.DigestOfAbc | apps/eth_probe/md5.cpp:12-112 | the digest of "abc" is that of the test suite in section A.5 of RFC 1321 |
| IdsProtocol.RoundTrip | src/IdsM_Protocol.c:54-122 | every transmitted field is read back, whatever the size |
| IdsProtocol.EncodeInjective | src/IdsM_Protocol.c:54-122 | messages of in-range events are uniquely decodable |
| IdsProtocol.GetMessageSize | src/IdsM_Protocol.c:34-52 | the predicted size is the number of bytes modulo 2^16 |
| IdsProtocol.SizeRight | src/IdsM_Protocol.c:34-52 | it is the number of bytes exactly up to the largest context |
| IdsProtocol.Serialize | src/IdsM_Protocol.c:54-122 | the buffer gets exactly the message, and nothing when it is too small; the rest stays |
| IdsProtocol.Layout | src/IdsM_Protocol.c:54-122 | every field of the message, in bytes, most significant first |
| PortScan.SourceState.Expire | apps/eth_probe/detectors.cpp:45-51 | expiring drops the events outside the window and keeps the index exact |
| PortScan.SourceState.Feed | apps/eth_probe/detectors.cpp:40-64 | the indexed detector decides as counting distinct ports of the event list does |
| PortScan.KeepsRecent | apps/eth_probe/detectors.cpp:45-51 | with time in order, the events kept are those of the window |
| PortScan.AlertCountsWindow | apps/eth_probe/detectors.cpp:52-62 | an alert comes exactly when the ports of the window reach the threshold and none was standing |
| PortScan.AlertIff | apps/eth_probe/detectors.cpp:40-64 | in terms of the packets alone: an alert comes exactly when the ports of the window reach the threshold and they had fallen below it, or no earlier alert stands |
| PortScan.BelowBetweenAlerts | apps/eth_probe/detectors.cpp:52-62 | between two alerts of a source its count was below the threshold |
| Reporter.StepConserves | src/IdsRm_Manager.cpp:174-288 | every step of callback, worker, sink or shutdown keeps every event in line and counted |
| Reporter.RunKeeps | src/IdsRm_Manager.cpp:174-288 | under every interleaving conservation, queue limits, request limits and shutdown order hold |
| Reporter.ShutdownLosesNothing | src/IdsRm_Manager.cpp:82-106 | after a shutdown every received event was posted or failed, in order |
| Reporter.ArrivalIff | src/IdsRm_Manager.cpp:174-227 | an arriving event is queued unless reporting is off or 128 wait, and handed to a running sink unless 512 wait there; otherwise it is counted as dropped |
| Reporter.RequestIff | src/IdsRm_Manager.cpp:394-423 | a request that succeeds posts the first event, one that fails is repeated as often as configured, and then the event is given up |
| Reporter.PostWithRetry | src/IdsRm_Manager.cpp:394-423 | an event takes at most retry count + 1 requests and stops at the first that succeeds |
| Snapshot.Split | linux/idsm_managerd/log_snapshot.cpp:199-217 | chunks in order join to the file, all full but the last |
| Snapshot.ForgetIff | linux/idsm_managerd/log_snapshot.cpp:242-421 | a step can make a transfer be done later on with a chunk still due exactly when it is a negative-ack that omits a chunk due or lists one that the pass under way is not going to publish |
| Snapshot.RunKept | linux/idsm_managerd/log_snapshot.cpp:242-421 | so over every run each chunk is published or queued |
| Snapshot.DoneIsComplete | linux/idsm_managerd/log_snapshot.cpp:284-345 | a transfer that is done has published every chunk, and every listed one again |
| Snapshot.NackLostInPass | linux/idsm_managerd/log_snapshot.cpp:284-345 | a negative-ack saved in the middle of a pass can be forgotten |
| Snapshot.TransferDir.SendChunks | linux/idsm_managerd/log_snapshot.cpp:299-333 | the chunk loop sends from the front of the queue, at most eight, until one fails |
| Snapshot.TransferDir.Pump | linux/idsm_managerd/log_snapshot.cpp:284-345 | a pump call is a run of steps; when all goes well the first eight chunks queued go out and the transfer is done when none is left |
| Snapshot.TransferDir.OnNack | linux/idsm_managerd/log_snapshot.cpp:349-421 | a negative-ack takes a done transfer back and queues the listed chunks, each once and in order, or changes nothing queued |

## Left out

- The parser of rule files, addresses and CIDRs: branchy but shallow; the matchers start from parsed rules and prefixes that fit their address family.
- PCRE rules: a foreign library; the model is the build without it, where such rules are not loaded.
- `GeoIp::classify` and `CidrSet`: two trie look-ups and a case distinction each; the trie itself is modelled.
- Ethernet framing, VLAN tags and ARP: the model starts at the IP header.
- TLS, HTTP, DNS and SOME/IP field extraction, the rate, ARP and CAN detectors, the host probe's detectors: easy members next to the ones modelled.
- Ed25519, public key handling and fingerprints: one predicate on the signed bytes.
- JSON: bundles, snapshot metadata and negative-acks are records that have been parsed; a missing or mistyped field, which makes the program reject the message, does not occur in the model.
- `seedFromImageDefaults` of the rule manager: the same remove, copy and link calls as the switch, without a signature.
- The files a configuration bundle writes, call by call, with their version file and audit log: the model has the contents each name ends up with.
- Sockets, threads, MQTT and HTTP: a flag for each call says whether it succeeded.
- Restarting the reporter's local sink, or clearing its path, while it runs; resetting its counters.
- Detection status, statistics queries and event configuration checks of the manager: reads and writes of single fields.
- IdsmManager.IdsmManager.ReportSecurityEvent: requires fewer than 2^32 - 1 queued events, because the pending counters are 32 bits wide; the program would exhaust memory first.
- IpDefragEngine.IpDefrag.AddFragment: requires a fragment short enough that adding its length to an offset does not overflow 32 bits, as every captured frame is.
- TcpEngine.TcpReassembly.AddSegment: requires a payload shorter than 2^31 bytes, as every captured frame is; the flow and the direction in the result are left to SameFlowIff and SameWayIff.
- IdsProtocol.Serialize: requires a context that the 16-bit size can describe; beyond it the program writes past the size it checked, as SizeRight shows.
- TcpRuns.SegmentIncreasing: for a stream shorter than 2^31 - 1 bytes, or a window of a longer one; TcpWindow.DataNear is for any length.
- TcpTheorems.NothingTwice: for a stream shorter than 2^31 - 1 bytes; NothingTwiceNear is for any length, while raw numbers come in stream order.
- TcpTheorems.EarlyFinLosesByte: for a stream shorter than 2^31 - 1 bytes; TcpFaithful.FinFaithfulIff is for any length.
- TcpEndToEnd.TableNothingTwice: for a stream shorter than 2^31 - 1 bytes; TableRises is for any length.
- TcpTheorems.LongestPrefix: for runs in which no cap refuses a segment, no gap times out, no FIN overtakes data, segments are within 2^31 bytes of the expected position and raw numbers come in stream order.
- TcpEndToEnd.TableDeliversPrefix: for runs that are calm, in order and keep the flow; TcpTraffic.TrafficDeliversPrefix derives all three from the traffic.
- TcpFirstCopy.FirstCopyKeptIff: for segments within 2^31 bytes of the expected position whose raw numbers come in stream order.
- TcpFirstCopy.InLineDelivers: the same, and so InLineKeptIff.
- TcpGap.AsideDelivers: the same, for what is buffered after the segment has been placed.
- FragmentEndToEnd.WireToWire: for a datagram whose entry is not evicted while it is incomplete, which DefragTraffic.SafeFromEviction derives from the traffic, and a memory cap that admits one datagram.
- TcpEndToEnd.Projects: for a flow that stays in the table, which TcpTraffic.StaysPresent derives from the traffic.
- RuleMatch.ContentMatches: for buffers and patterns shorter than 2^63 bytes, as any memory is; where the search leaves its buffer the model says so and stops, and does not say what the program reads there.
- RuleEngine.MatchRules: gives no hits where a search leaves its buffer, for the same reason.
- RuleRuns.SeqsIncrease: for bundles that are not both targeted and called max_seq; StoredSeqSafeIff shows what those do.
- RuleSwitchSafety.SwitchSafe: for installations in which the calls whose results the program ignores do their work; RuleShortWrites says what happens when rule files are written in part or cannot be opened.
- RuleAmbiguity.AmbiguousIff: for version names that the rule manager accepts, and payload lines as it builds them.
- AlertQueue.AlertQueue.MarkUploaded: for an object that has been told its directory by an open, failed or not; before that the program takes the last character of an empty path.
- AlertFifo.RunIsFifo: for runs without a crash in which every line is stored whole and holds no NUL byte; a crash is in RestartRepeats, a torn compaction in AlertProtocol.TornIff.
- AlertProtocol.AtomicCompactionSafe: truncation and the cursor save after it count as one step, and no line holds a NUL byte, at which the program would measure the line short.
- Snapshot.DoneIsComplete: for negative-acks that list every chunk the collector lacks, and that are not saved in the middle of a pass unless the pass sends those chunks anyway.
- PortScan.AlertIff: for clock readings that do not go back, as those of a monotonic clock.
- The split of a pump call over several transfers: each transfer is pumped by itself.
- Clock wrap of the 32-bit millisecond counter beyond what the deadline sums do.
