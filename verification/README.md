# Cyrenus: the packet filter, its maps and the broadcast server

Cyrenus drops attack traffic in an XDP program and shows what it sees through a small HTTP and WebSocket server.
This project models three parts of it and proves what they promise over whole runs.

**The packet filter** (`ebpf/xdp_prog.c`). Each frame goes through a fixed chain: fragment tracker, country block,
early filter with an ICMP token bucket, SYN / DNS / UDP trackers, source rule, destination rule, flow recording.
`XdpFilter.Filter` is the program as an object whose maps the checks update in place; each method is proved equal to a
step function of `XdpProgram`. A step function also appends its input to a history, so that the counters the program
keeps can be compared with what really happened. The trackers (`TokenBucket`, `SynTracker`, `DnsTracker`,
`UdpTracker`, `Fragments`, `Flows`) are first proved on every sequence of inputs; `Runs` proves that in every
reachable state each map entry is exactly what the tracker makes of the history of its key; `Chronicle` tells the
histories from the frames; `Chain`, `Ledger`, `Isolation`, `Records`, `Directions`, `Judgements`, `DnsRuns`,
`IcmpRuns`, `SynRuns` and `AttackRuns` draw the conclusions for the whole program. A run is a sequence of events; each
carries the frame, the clock readings of one pass (one for each call of `bpf_ktime_get_ns` on the path, never running
backwards), and whatever configuration, rules and geo data are in force at that moment. Integer widths, wrap-around
and truncation are written out.

**Atomic counters** (`AtomicCounters`). The same DNS and SYN tests at the level of single steps: any number of CPUs add
atomically and re-read later, in any interleaving.

**The broadcast** (`src/websocket_server.c`). `Broadcast` is the protocol as atomic steps of producers, callbacks and the
service loop, with the position of the loop explicit; `BroadcastServer.Server` is the object with the character buffer.

**Readers and writers of the kernel maps** (`src/attack_info.c`, `src/api/rules.c`). The attack-array reader composed with
the kernel writer, and the rule handlers composed with `apply_rule`, down to printed and parsed ids.

Where the code and its own comments differ, the code is modelled:

- at capacity `update_attack_info` overwrites the newest slot, not the oldest record (lines 225-229);
- the UDP tracker's timestamp moves on every packet not dropped for its rate, so it keeps no one-second window (lines 329, 376);
- the flag counters are stated by bit; 0x40 is ECE and 0x80 is CWR in section 3.1 of RFC 9293, and lines 845-846 name them the other way round;
- the built-in limits for a missing configuration (lines 192-197) are modelled, although looking up key 0 of an array map finds an entry even before it is filled;
- the comment of the delete handler promises the format, but a failed conversion is not handled: the key is then built from whatever the variables held (`RuleApi.Leftover`).

Some things one would expect are false of the code; for each an input is given, and the exact condition under which it
holds is proved:

- the smallest packet length of a flow is its true minimum only if no payload was empty or the last one was
  (`Flows.MinOverIsTrueMinWhen`, input: `Counterexamples.MinimumIsNot`);
- the attack reader returns everything that was logged only if nothing was
  (`AttackLog.ReaderCompleteExactlyWhen`, input: `Counterexamples.AttackIsNotRead`);
- the rule list is complete only if the all-zero key is not a rule
  (`RuleApi.ListCompleteExactlyWhen`, input: `RuleApi.EmptyRequestIsNotListed`);
- deleting by the id of a list entry removes its rule and no other only for TCP, UDP and ICMP
  (`RuleApi.DeletedByEntry`, input: `RuleApi.WrongRuleGoes`).

## Model

| member | source | states |
|---|---|---|
| XdpFilter.Filter.Process | ebpf/xdp_prog.c:703-879 | one frame through the program updates the maps in place and gives the verdict as the chain of step functions does |
| XdpFilter.Filter.constructor | ebpf/xdp_prog.c:58-184 | all maps and counters start empty or zero |
| XdpFilter.Filter.HandleFragment | ebpf/xdp_prog.c:456-500 | the fragment check updates its entry and decides as the fragment tracker's step |
| XdpFilter.Filter.EarlyFilter | ebpf/xdp_prog.c:600-649 | zero addresses and TTL, the broadcast exemption, and the token bucket updated in place |
| XdpFilter.Filter.CheckSynFlood | ebpf/xdp_prog.c:545-598 | the SYN tracker updated in place as its step function |
| XdpFilter.Filter.CheckDns | ebpf/xdp_prog.c:391-454 | the DNS tracker updated in place as its step function |
| XdpFilter.Filter.CheckUdp | ebpf/xdp_prog.c:307-389 | the UDP tracker updated in place as its step function, with the attack log written exactly on a rate drop |
| XdpFilter.Filter.UpdateAttackInfo | ebpf/xdp_prog.c:212-247 | the record goes into the next free slot, or the last one at capacity |
| XdpFilter.Filter.RecordFlow | ebpf/xdp_prog.c:818-876 | a flow record is created or continued in place as the flow step |
| XdpFilter.Filter.CheckTransport | ebpf/xdp_prog.c:754-794 | which rate checks a transport header meets, in order |
| XdpFilter.Filter.CountFrame | ebpf/xdp_prog.c:714-720 | every IPv4 frame is counted with its wire length |
| Chain.OnlyBlockedCountriesMatter | ebpf/xdp_prog.c:680-700 | a frame from a blocked country is dropped and leaves nothing but the totals and its fragment entry; every other frame is treated exactly as without geo data |
| XdpProgram.RecordedUnderLookedUpKey | ebpf/xdp_prog.c:287-295 | the established test looks up the key the recording stage files the packet under |
| XdpProgram.LengthsMakeUpDatagram | ebpf/xdp_prog.c:796 | payload and header lengths add up to the total length, wrapping when the headers claim more |
| Chain.VerdictIsFirstObjection | ebpf/xdp_prog.c:726-878 | the verdict is the first objection of checks that can all be asked about the state before the frame; a frame is recorded exactly when none objects and its headers are complete, and nothing else changes a flow |
| Chain.OnlyPassedFramesAreRecorded | ebpf/xdp_prog.c:726-804 | a dropped or transmitted frame leaves every flow record alone |
| Isolation.OthersDoNotMatter | ebpf/xdp_prog.c:703-879 | for every run, removing all frames of other sources changes no verdict on a source's frames and nothing kept about it |
| Isolation.ProcessOwn | ebpf/xdp_prog.c:726-876 | on states that agree about its source, a frame gets the same verdict and leaves states that agree again |
| Isolation.ProcessOther | ebpf/xdp_prog.c:726-876 | a frame from elsewhere leaves every entry and flow of a source as it was |
| Runs.ProcessKeeps | ebpf/xdp_prog.c:703-879 | one frame keeps: every map entry is what its tracker makes of the history of its key; the log, the totals and the backing of relaxed thresholds are right |
| Runs.RunKeeps | ebpf/xdp_prog.c:703-879 | that invariant holds after every run |
| Chronicle.FrameTold | ebpf/xdp_prog.c:703-879 | what one frame adds to the history of each check and of the recording stage, from its header fields, the configuration and the clock, with the numbers written out |
| Chronicle.RunTold | ebpf/xdp_prog.c:703-879 | the histories of every run are what its frames say |
| Chronicle.TotalsTold | ebpf/xdp_prog.c:714-720 | the totals are the number and the summed wire lengths of the IPv4 frames of the run, modulo 2^64 |
| Judgements.EarlyFilterPassesExactlyWhen | ebpf/xdp_prog.c:600-649 | in every reachable state: zero addresses, TTL 0, broadcast and other protocols get the answers of the code; an ICMP packet passes exactly when it is the first of its source or the level of the bucket is at least one token |
| TokenBucket.GrownAtMost | ebpf/xdp_prog.c:632-636 | wrapping the u64 product and truncating the u32 sum can only lose tokens, and never exceed the rate |
| TokenBucket.RefillUnwrapped | ebpf/xdp_prog.c:630-636 | without wrap-around the refill is the exact number of whole tokens, capped |
| TokenBucket.AdmittedAfterGap | ebpf/xdp_prog.c:638-642 | a packet at least 1/R seconds after the last one let through is let through, if nothing wraps |
| TokenBucket.AdmitsExactlyWhen | ebpf/xdp_prog.c:613-646 | exactly which packets get in: the first of a source, and those for which the level told from the arrivals is at least one token, wrap-around included |
| TokenBucket.FreshBurstGetsIn | ebpf/xdp_prog.c:617-642 | the first 1 + R packets of a source within a second all get in, so the bound on a burst is attained |
| TokenBucket.AdmittedInInterval | ebpf/xdp_prog.c:613-646 | at most 1 + R + floor(R*d/10^9) ICMP packets of a source in any d nanoseconds with rates up to R, whatever the rate was before, wrap-around included |
| TokenBucket.LeadCoversLevel | ebpf/xdp_prog.c:613-646 | the exact bucket's lead in admissions makes up for any level it is short of |
| TokenBucket.NeverAheadOfExact | ebpf/xdp_prog.c:613-646 | at every prefix the integer bucket has let through no more than a bucket without floor loss |
| TokenBucket.DifferentPackets | ebpf/xdp_prog.c:632-645 | the two may let through different packets: an arrival sequence where each passes one the other drops |
| IcmpRuns.PingsInInterval | ebpf/xdp_prog.c:600-649 | the same bound for the ICMP frames the whole program passes in any run |
| SynTracker.CountersAreExact | ebpf/xdp_prog.c:551-595 | the counters are the SYNs and SYN-ACKs since the window opened, modulo 2^32 |
| SynTracker.DroppedExactlyWhen | ebpf/xdp_prog.c:569-584 | exactly which packets are dropped, in terms of the window's history, with the counters and the u32 product modulo 2^32 |
| SynTracker.DroppedUnwrapped | ebpf/xdp_prog.c:569-584 | the same with plain numbers, while nothing wraps |
| SynTracker.PassedInWindow | ebpf/xdp_prog.c:545-598 | at most max(1, rate, 10 * SYN-ACKs) SYNs pass from any point of a window on |
| SynTracker.PassedInAnySecond | ebpf/xdp_prog.c:545-598 | at most twice that in any span of one second |
| SynRuns.SynFramesInWindow | ebpf/xdp_prog.c:545-598 | the window bound for the SYN frames the whole program passes, in any run |
| SynRuns.SynFramesInAnySecond | ebpf/xdp_prog.c:545-598 | the bound for any second of any run |
| Passages.PassedAreLetThrough | ebpf/xdp_prog.c:726-794 | frames of a kind that the program passes are among the inputs its check lets through, at the times of their events |
| SynTracker.Step | ebpf/xdp_prog.c:571-573 | a SYN-ACK is never dropped |
| Judgements.SynDroppedExactlyWhen | ebpf/xdp_prog.c:545-598 | in every reachable state, from the flag byte: packets without SYN pass unnoticed, and exactly which others are dropped |
| DnsTracker.CountersAreExact | ebpf/xdp_prog.c:406-451 | packet count and bytes are those since the window opened, modulo 2^32 |
| DnsTracker.PassesExactlyWhen | ebpf/xdp_prog.c:404-453 | exactly which packets pass: the first of a window, and those within the rate or five times the rate, counted modulo 2^32, that are not from port 53 with more than 512 bytes |
| DnsTracker.PassedInWindow | ebpf/xdp_prog.c:417-446 | at most max(1, k) packets of a window pass when no threshold exceeds k |
| Histories.TwoWindows | ebpf/xdp_prog.c:415-450 | a span of one second meets two windows at most |
| DnsTracker.PassedInAnySecond | ebpf/xdp_prog.c:404-453 | at most 2 * max(1, k) packets pass in any span of one second |
| DnsTracker.PassedAtFixedRate | ebpf/xdp_prog.c:426-433 | k is five times the configured rate, or the rate itself when no flow is established |
| DnsRuns.DnsFramesInAnySecond | ebpf/xdp_prog.c:391-454 | the same bounds for the DNS frames the whole program passes in any second of any run |
| Judgements.DnsPassesExactlyWhen | ebpf/xdp_prog.c:391-454 | the same in every reachable state, from the header fields, the relaxed threshold resting on the recorded history; packets not of port 53 pass unnoticed |
| UdpTracker.CountersAreExact | ebpf/xdp_prog.c:318-376 | the timestamp is that of the last packet not dropped for its rate; the counters are packets and bytes since the last reset, modulo 2^32 |
| UdpTracker.RateTest | ebpf/xdp_prog.c:347-361 | the rate is computed without u64 overflow, and the floored comparison is count*10^9 >= (threshold+1)*gap |
| UdpTracker.RateDroppedExactlyWhen | ebpf/xdp_prog.c:343-373 | exactly which packets are dropped for their rate: gap strictly between 100 ms and 1 s, more than 200 packets since the reset and the rate exceeded, counted modulo 2^32 |
| UdpTracker.RateDroppedUnwrapped | ebpf/xdp_prog.c:343-373 | the same with the plain number of packets, before the counter wraps |
| UdpTracker.SteadyTrafficIsNeverRateDropped | ebpf/xdp_prog.c:329-376 | while neighbours are at most 100 ms apart none is dropped for its rate, however many there are |
| UdpTracker.PassesExactlyWhen | ebpf/xdp_prog.c:319-388 | which packets pass: the first after a reset, and those neither too fast, nor above 512 bytes to port 53, nor above 1024 bytes from or to port 123 |
| Judgements.UdpPassesExactlyWhen | ebpf/xdp_prog.c:307-389 | in every reachable state, from the header fields: which UDP packets pass, and that exactly the too fast ones are logged, with what record |
| AttackRuns.FrameIsJudged | ebpf/xdp_prog.c:726-783 | one frame adds to the UDP history exactly when it meets the UDP check, and logs an attack exactly when that check drops it for its rate |
| AttackRuns.LoggedExactlyAttacks | ebpf/xdp_prog.c:307-389 | the attacks logged in any run are exactly the UDP packets that meet the check and are too fast for their source's history, in order |
| AttackRuns.SteadySourceIsNeverLogged | ebpf/xdp_prog.c:329-376 | in any run, a source with no gap above 100 ms is never logged |
| Fragments.FragmentBits | ebpf/xdp_prog.c:458-462 | a fragment is a packet with anything in the low fourteen bits of the field |
| Fragments.CounterIsExact | ebpf/xdp_prog.c:468-479 | the counter is the length of the current burst, no two neighbours of which are more than 30 s apart |
| Fragments.PassesExactlyWhen | ebpf/xdp_prog.c:462-499 | exactly which fragments pass: not starting at byte 8, not short with more to come, and within the limit of their burst, counted modulo 2^32; only the first of a source escapes the limit |
| Judgements.FragmentPassesExactlyWhen | ebpf/xdp_prog.c:456-500 | the same in every reachable state, from the header fields; packets that are no fragments pass unnoticed |
| Flows.Totals | ebpf/xdp_prog.c:821-875 | identity, clock fields and totals of a record are those of its packets; the gaps telescope to its duration |
| Flows.SideTotals | ebpf/xdp_prog.c:834-860 | the sums of one direction are about the packets that went that way, the first packet counting as forward |
| Flows.Conservation | ebpf/xdp_prog.c:270-278 | forward and backward packets, bytes and gaps add up to the totals modulo the field width; length sums equal bytes modulo 2^32 |
| Flows.FlagTotals | ebpf/xdp_prog.c:838-873 | each flag counter of a TCP flow is the number of its packets with that bit |
| Flows.MaxOverIsMax | ebpf/xdp_prog.c:251-265 | the running maximum is the maximum |
| Flows.MinOverIsRecentMin | ebpf/xdp_prog.c:253-267 | the running minimum is the minimum after the latest empty payload, 0 if that was the last |
| Flows.MinOverIsTrueMinWhen | ebpf/xdp_prog.c:253-267 | it is the true minimum if and only if no payload is empty or the last one is |
| Flows.SideExtremes | ebpf/xdp_prog.c:250-262 | the extremes of each direction are the running extremes of its payloads |
| Flows.Extremes | ebpf/xdp_prog.c:264-267 | so are those of the flow, for payloads that fit u16 |
| Flows.EstablishedExactlyWhen | ebpf/xdp_prog.c:295-304 | a record counts as established exactly when its first packet is more than 5 s old |
| Directions.FlowDirection | ebpf/xdp_prog.c:806-857 | in every run under one host address, a flow to the host has all its packets forward and direction 0; any other has exactly its first packet forward and direction 1 |
| Records.FlowsConserve | ebpf/xdp_prog.c:821-875 | conservation and telescoping for every flow of every reachable state |
| Records.LengthExtremes | ebpf/xdp_prog.c:249-268 | the length extremes of every flow of every reachable state, with the exact condition for a true minimum |
| Counterexamples.MinimumIsNot | ebpf/xdp_prog.c:253-267 | a run of two packets, the first one empty, after which the minimum on record is 100 |
| Records.EstablishedMeansHistory | ebpf/xdp_prog.c:282-305 | after any run a 5-tuple is established exactly when its first recorded packet is more than 5 s old |
| Records.RelaxedRestsOnAcceptedPacket | ebpf/xdp_prog.c:349-359 | a relaxed threshold always rests on a recorded packet of that flow more than 5 s old |
| Ledger.RunBalanced | ebpf/xdp_prog.c:714-876 | the flow records account for the recorded packets, and every counted frame was either recorded or returned before |
| Ledger.PacketLedger | ebpf/xdp_prog.c:714-876 | packets in all flows plus frames returned early equal total_packets, modulo 2^32 always and exactly while nothing wraps |
| AttackLog.GetAttackInfo | src/attack_info.c:34-106 | the scan returns the live records of slots 1 to 999 in order, within its buffer, and ends |
| AttackLog.WrittenSlots | ebpf/xdp_prog.c:212-247 | the slots after n records: all of them up to 1000, then the first 999 and the newest |
| AttackLog.LiveOnesAre | src/attack_info.c:62-83 | the reader takes the records with a packet count and a timestamp |
| AttackLog.ReaderReturns | src/attack_info.c:62-83 | what the reader returns after n records |
| AttackLog.ReaderCompleteExactlyWhen | src/attack_info.c:62-83 | it returns all that was logged, and as many as attack_count says, if and only if nothing was logged |
| Records.FrameLogs | ebpf/xdp_prog.c:370 | a frame logs nothing, or one attack: its source, UDP, one packet, its total length, at the time of logging |
| Records.ReaderSeesAttacks | src/attack_info.c:62-83 | the same for the attacks logged in any run of the filter |
| Counterexamples.AttackIsNotRead | src/attack_info.c:62-83 | a run of 201 datagrams that logs one attack, of which the reader returns nothing |
| AtomicCounters.DnsPassesAtMost | ebpf/xdp_prog.c:417-441 | for any interleaving of adds and re-reads, at most max(1, k) packets of a window pass the count test |
| AtomicCounters.SynPassesAtMost | ebpf/xdp_prog.c:569-583 | likewise at most max(1, rate, 10 * SYN-ACKs) SYNs, the operands read in either order |
| AtomicCounters.DnsStepsTogether | ebpf/xdp_prog.c:417-441 | steps taken together are the sequential DNS tracker's |
| AtomicCounters.SynStepsTogether | ebpf/xdp_prog.c:569-584 | steps taken together are the sequential SYN tracker's |
| Broadcast.DoKeeps | src/websocket_server.c:22-54 | every atomic step keeps the invariant of the protocol |
| Broadcast.NoLostWakeup | src/websocket_server.c:158-172 | a client that is behind has a callback requested or the server's version is behind, under any interleaving |
| Broadcast.OneClient | src/websocket_server.c:22-54 | what one step does to one client: connecting writes nothing, and only a requested Write of its own sends it anything, the current version if it is behind |
| Broadcast.JoinedTold | src/websocket_server.c:27-31 | a client starts from the number of broadcasts before its last connection, counted in the list of actions |
| Broadcast.ClientsSeeConsistentHistory | src/websocket_server.c:27-54 | versions sent to a client strictly increase, payloads are the messages of their versions cut to 4095 characters, and all of them were broadcast after its last connection, told from the list of actions |
| Broadcast.QuietStep | src/websocket_server.c:158-172 | once broadcasts stop, loop steps lower a rank and writes shorten the waiting list |
| Broadcast.SettledIsDelivered | src/websocket_server.c:33-54 | when both are zero everybody is up to date |
| Broadcast.EventuallyDelivered | src/websocket_server.c:105-172 | in every fair endless run without further broadcasts each client reaches the last version and stays there |
| BroadcastServer.Server.Send | src/websocket_server.c:105-112 | the buffer holds the truncated message and the version goes up |
| BroadcastServer.Server.Establish | src/websocket_server.c:27-31 | a client starts caught up |
| BroadcastServer.Server.Write | src/websocket_server.c:33-54 | a client that is behind is sent the text of the buffer and takes its version |
| BroadcastServer.Server.ReadVersion | src/websocket_server.c:162-164 | the loop reads the version |
| BroadcastServer.Server.Request | src/websocket_server.c:166-167 | callbacks are requested for all clients if the version read is news |
| BroadcastServer.Server.Store | src/websocket_server.c:168 | the loop stores the version it read |
| RuleMatch.MostSpecificRuleDecides | ebpf/xdp_prog.c:502-543 | the most specific rule about a packet, one that names its port before one that names none, gives the verdict; without a deciding rule the packet passes |
| RuleMatch.HtonsInvolution | src/api/rules.c:39 | converting a port twice gives it back |
| Text.QuadRoundTrip | src/api/rules.c:35 | every address survives printing and parsing |
| Text.ParsesExactlyWhenPrinted | src/api/rules.c:84-88 | a text parses to an address if and only if it is the decimal octets printed for it, lowest byte first |
| RuleApi.Rules.Create | src/api/rules.c:61-130 | a rule is stored under the key of the parsed fields, with action 2 exactly for the word "pass", or the body is refused |
| RuleApi.RequestTold | src/api/rules.c:84-109 | key and rule of a request, told from its text |
| RuleApi.RequestTakesEffect | src/api/rules.c:84-109 | from the text to the filter: packets of the address, port and protocol asked for are passed for "pass" and dropped for anything else |
| RuleApi.Rules.List | src/api/rules.c:22-48 | the list is made of the keys after the all-zero key in the map's order, or of all keys |
| RuleApi.Rules.Delete | src/api/rules.c:133-161 | the key assembled field by field from the conversions that succeed is the parsed one, and exactly that key is removed |
| RuleApi.ShownExactlyWhen | src/api/rules.c:28-47 | a rule is listed if and only if the all-zero key is no rule or comes before it |
| RuleApi.ListCompleteExactlyWhen | src/api/rules.c:28-47 | the list is complete if and only if the all-zero key is not a rule |
| RuleApi.EmptyRequestIsNotListed | src/api/rules.c:78-108 | a request without fields makes the all-zero key a rule, and its list is empty |
| RuleApi.IdText | web/src/app.ts:262-263 | the id of an entry as text |
| RuleApi.IdTold | src/api/rules.c:136-149 | what any id of one, two or three parts means, missing parts being what the variables held before |
| RuleApi.IdParses | src/api/rules.c:136-149 | what key the id of a list entry parses to |
| RuleApi.IdRoundTripExactlyWhen | web/src/app.ts:262-263 | the id leads back to its rule if and only if the protocol is TCP, UDP or ICMP |
| RuleApi.CreatedIsListedExactlyWhen | src/api/rules.c:28-47 | after any create, the list holds an entry that shows the request if and only if the all-zero key is no rule or comes before |
| RuleApi.CreatedRuleDecides | ebpf/xdp_prog.c:502-543 | a created rule decides for exactly the packets it is about, unless another rule names their port; nothing else changes |
| RuleApi.DeletedByEntry | src/api/rules.c:136-151 | for every entry, deleting by its id takes its rule alone if and only if the protocol is TCP, UDP or ICMP; otherwise the TCP rule of that address and port goes |
| RuleApi.RuleLifeCycle | src/api/rules.c:84-151 | for every request: created, listed and deleted by the id of its entry; the requested action holds until then; the delete takes exactly that key if and only if the protocol was one of the three |
| RuleApi.WrongRuleGoes | src/api/rules.c:95-101 | a request without a protocol whose entry's id deletes another rule |

## Left out

- Map capacity and LRU eviction: kernel policy; the maps are unbounded.
- Races on updates that are not atomic (window resets, entry creation, the attack count, flow fields): the code does not protect them, so these parts are proved for frames processed one after the other.
- An entry updated through a pointer is a value taken from its map and stored back; the frame sees one consistent set of configuration, rules and geo data.
- The per-CPU totals are one counter, their sum.
- The longest-prefix match of the geo map is an arbitrary map from addresses to countries.
- Packet bounds checks on raw pointers, struct padding and bpf_printk: a frame is given as parsed headers, or as cut off before one.
- rate_limit (lines 651-678): the shape of the ICMP bucket, never called.
- AtomicCounters.DnsPassesAtMost: assumes fewer than 2^32 additions in the window; the size test that may still drop a packet is not part of it.
- Broadcast.EventuallyDelivered: assumes that writes succeed, that lws_service returns again and again, and that a requested callback is eventually run; closing the server is not modelled.
- Wrap-around of the C int version counter after 2^31 broadcasts.
- Allocation failure in get_attack_info, printing of addresses, and get_proto_name of src/attack_info.c.
- HTTP responses, JSON syntax, map update failures, and integers beyond the range of int in rule ids.
- Authentication, databases, configuration files, process control, event classification and the web pages: outside these three parts.
