# Mimic: a verified model

Mimic makes a host look like another operating system: it rewrites the host's own TCP/IP packets, answers scanners
from captured templates, and runs honeypot services over an endless generated filesystem. This project models the
parts of it that are hardest to get right and proves what they promise, for every input, every profile and every run.

| files | component |
|---|---|
| `Bytes`, `Text`, `TcpOptions`, `TcpSegment` | bytes and network-order fields; case folding; TCP option lists and their parser; a packet as header, options and payload |
| `TcpShaping`, `TcpTheorems`, `TcpContents` | what the egress rewriter makes of a segment, stage by stage; what it keeps, emits and echoes |
| `TcpAnswers`, `Fingerprints` | the option list of every answer, written out; the strings a scanner prints for shipped profiles |
| `Profiles` | what the rewriter derives from a profile file, and the profiles and packets on which a promise fails |
| `Egress`, `Backend`, `PacketRules`, `WireHeader` | the same stages in place on byte arrays, and the backend object; the rules for whole IP packets, and every header byte that leaves |
| `SynCache`, `SynTrace`, `IpIds` | the cache of inbound SYNs against its history; traces of SYNs in and packets out, and the identifications they carry |
| `HifiProtocol`, `HifiOutcomes`, `HifiControl` | the arm/trip protocol of the kernel driver in every interleaving; what Enable, Disable and a trip bring about; the driver's client, its device and the watchdog loop |
| `IpChecksum`, `HifiFilter`, `HifiFrames` | the driver's checksum in 32-bit arithmetic, its header rewrite, and the send loop over mapped buffers; which frames leave with which identification |
| `Session`, `SessionCases`, `Template`, `Matcher`, `PatternCases` | packets to exchanges, exchanges to signatures and dynamic fields, probe matching; what each of these means, byte by byte |
| `Responder`, `ResponderContents`, `HostIp` | replay in place, what each type of rule writes, the host's address for the captured one |
| `Asn1`, `Ber`, `BerTheorems`, `BerCases` | the BER reader of SNMP requests |
| `Tpkt`, `TpktWire`, `CredSsp`, `CredSspReader` | the framing of CredSSP on a stream; the challenge message, and a client's reader for it |
| `Md4`, `Md4Vector` | the hash against RFC 1320, and the RFC's digest of "abc" |
| `Detector`, `DetectorCases` | the sliding-window abuse detector, and what blocks under its default settings |
| `Maze`, `MazeCounts`, `MazeNames`, `Tree`, `TreeLookup` | the generated filesystem: listings, their sizes and names; path resolution and how names compare |
| `Ftp`, `FtpLaws` | the FTP working directory, and what CWD and CDUP do to it |

The shape is the same everywhere. Imperative code is a method over arrays or the fields of a class, proved equal to a
function of its inputs and the old state; what the program promises is then proved about that function, for all inputs
or over all runs. Random draws, clock readings, hash seeds and the success of system calls are parameters, so each
theorem holds whatever they are. A clock is one value per place that reads it.

Where a promise does not hold on all inputs, the theorem gives the exact condition:

- A packet with right length fields leaves with a right data offset always, and with a right total length exactly when
  its size with the new option length is below 65536 bytes; that length is read off packet and profile beforehand
  (`ShapeKeeps`, `SentLengthIs`, and `EgressKeeps` for whole packets). Under the Ubuntu profile `LengthsCanFail` is a
  packet on which it fails. Shrinking undoes growing exactly when the length fields were right before
  (`ShrinkUndoesGrow`).
- The eight bytes that growth adds are overwritten under every profile with fewer than 256 options; exactly with 256,
  512 and so on the count wraps to 0 and the packet goes out with zeros in it (`GrowthCovered`, `GrowthLeaks`).
- A macOS profile with a window scale gets the Windows timestamp template, unlike its code comment says, and then
  repeats the SACK-permitted option: `SackRepeated` says exactly when, and the shipped profile
  profiles/macos/sonoma.yaml does it (`SonomaRepeatsSack`).
- The rewriter takes a host's answer to permit SACK exactly when the option is there or a byte of a clock at one of the
  places it looks at is 4 (`WindowsRead`, `LinuxRead`, `WindowsHostAnswer`). Its search in the answer to a SYN without
  timestamps always hits the length byte of the MSS option, so that answer permits SACK whenever the profile does,
  whatever the host said (`EcnAnswer`).
- A host's own TSecr is looked for where a Linux host puts it: a Windows host's is never found, and a Linux host's is,
  unless the upper half of its TSval is 0x080A and looks like a timestamp option itself (`WindowsRead`, `LinuxRead`).
- The shipped Sonoma profile prints as M5B4NW6ST11SLL, where its file has NN before the timestamp (`SonomaPrints`);
  those of Ubuntu, Windows 10 and Windows 11 print as their comments say.
- The TSRequest has one SEQUENCE less around its token than MS-CSSP section 2.2.1.1 asks for (`OneSequenceShort`).
  Apart from that a client's reader finds the message in it exactly up to 65479 bytes (`TokenIsMessage`).
- The BER reader fails on a slice out of range exactly when one of the headers it gets to, at any depth, wraps a
  64-bit length (`PanicsExactly`, `LongLengthPanics`), and so does a whole request (`RequestPanicsExactly`); as long as
  those headers have at most seven length octets it never does, whatever the contents hold (`NeverPanics`).
- The OID reader inverts the encoding exactly for second arcs below 40 (`OidRoundTrip`).
- The detector's pruned hits are the whole history's exactly when no hit of the window had already left the window of
  a later event (`KeepsWindowExactly`); events in time order never have (`KeepsWindow`).
- Two blocks of one source are always more than the cooldown apart exactly when the cooldown is at least -1, whatever
  window and threshold are (`ApartExactly`; `BackInTime` is the failing run for every other cooldown). Consecutive
  blocks are apart under any cooldown (`NextBlockApart`).
- Every entry of a maze listing, planted or generated, is found by its own name exactly when no two different entries
  have names that fold alike (`ListedIsFound`); a condition on the word lists rules that out among generated entries
  (`GoodListings`). The 65 and 39 words of internal/deception/maze.go (lines 203-234) meet it: all of them fold to
  different words and none is another one followed by digits. So only a planted entry can hide a generated one.
- A replay rule fails on a slice, or is refused, under conditions on its numbers, what its surroundings supply and the
  lengths of response and probe, whatever their bytes (`ApplyRule`, `RulesStopExactly`). The probe's length matters to
  echo rules of negative length (`EchoFailsByProbe`).
- Scanning a response for the captured address and writing the host's over it leaves no captured address in any
  response exactly when the two differ and the host's does not complete a captured one from the bytes before it
  (`GoneExactly`; `CanStayBehind` is a pair and a response on which one stays).
- The driver's 32-bit sum cannot overflow exactly up to 131074 bytes (`AccumulatorBound`).

`dafny verify dfyconfig.toml` checks everything.

## Model

| member | source | states |
|---|---|---|
| TcpOptions.ParseSound | internal/stack/backend_windows.go:264-288 | the reference option parser (RFC 9293 section 3.2) accepts only blocks that are the encoding of the list it returns |
| TcpOptions.ParseComplete | internal/stack/backend_windows.go:264-288 | the encoding of every legal option list parses to that list |
| TcpOptions.ScanSynTimestamp | internal/stack/backend_windows.go:264-288 | the scan loop over a slice of the packet, on any bytes, stays in bounds, stops, and reports what its specification finds |
| TcpOptions.ScanLegal | internal/stack/backend_windows.go:264-288 | on every legal option list the scan returns the TSval of the first timestamp a receiver would parse, and nothing when there is none |
| TcpSegment.ShrinkUndoesGrow | internal/stack/backend_windows.go:601-632 | shrinking restores every byte after growing if and only if total length and data offset were right before |
| Egress.GrowTCPHeader | internal/stack/backend_windows.go:601-613 | the new buffer is the old packet with zero bytes after its options, data offset and total length restamped; too short or not growing leaves the packet as it is |
| Egress.ShrinkTCPHeader | internal/stack/backend_windows.go:615-632 | the new buffer is the packet without its last option bytes, lengths restamped; a header below 20 bytes is refused |
| Egress.PutMSS | internal/stack/backend_windows.go:1092-1097 | writes one MSS option and no other byte |
| Egress.Stage20 | internal/stack/backend_windows.go:686-839 | in place, the SYN or SYN-ACK block becomes the profile's template, with the shrink and the macOS growth; an unset flag means the segment is as before |
| Egress.StageEcn | internal/stack/backend_windows.go:841-881 | in place, the answer to a SYN without timestamps gets the timestamp-free block |
| Egress.Stage12 | internal/stack/backend_windows.go:883-918 | in place, a 12-byte outbound SYN gets its template |
| Egress.StageO6 | internal/stack/backend_windows.go:920-933 | in place, the 16-byte block of a timestamp profile gets its window and a fresh TSval |
| Egress.StageO6NoTs | internal/stack/backend_windows.go:935-964 | the 16-byte block of a profile without timestamps becomes 8 bytes, the packet 8 bytes shorter |
| Egress.StageCoherence | internal/stack/backend_windows.go:966-972 | in place, an established segment's timestamp gets a fresh TSval at option bytes 4 to 7 and nothing else changes; `TcpAnswers.EstablishedTimestamps` says which options then leave |
| Egress.PatchSynAckTSval | internal/stack/backend_windows.go:1062-1089 | the walk in place re-times what its specification says and leaves all other bytes; an unset flag means no byte differs |
| TcpTheorems.PatchEncode | internal/stack/backend_windows.go:1062-1089 | on every legal option list the walk replaces the TSval of each timestamp option and changes no other option, at any offset |
| Egress.StageEce | internal/stack/backend_windows.go:989-1003 | in place, ECE of a SYN-ACK is what the profile's family answers, other flags as before |
| Egress.ShapeInPlace | internal/stack/backend_windows.go:664-1005 | all stages in order, in place or in a reallocated buffer, make exactly the specified segment |
| Backend.WindowsBackend.ApplyTCP | internal/stack/backend_windows.go:636-1005 | for any bytes: malformed TCP passes unchanged, anything else comes out as the shaped segment looked up in the SYN cache; an unset flag means nothing changed |
| Backend.WindowsBackend.ApplyEgress | internal/stack/backend_windows.go:506-600 | the packet that leaves and the IP-ID state after it, for every packet, profile, cache and clock |
| Backend.WindowsBackend.EditIpHeader | internal/stack/backend_windows.go:516-576 | TTL, DF and identification in place; an unset flag means no byte differs |
| Backend.WindowsBackend.NextIpId | internal/stack/backend_windows.go:535-571 | one shared counter, xorshift or zero for Windows profiles; per protocol for the others |
| Backend.ApplyICMP | internal/stack/backend_windows.go:1030-1048 | clears DF and, for Windows, the code of echo replies, and nothing else |
| Backend.EditIcmp | internal/stack/backend_windows.go:589-597 | which ICMP messages take the port-unreachable path, and what becomes of them |
| PacketRules.IcmpKeeps | internal/stack/backend_windows.go:1007-1048 | of an ICMP packet only the DF byte and the code byte can change; DF is clear afterwards except on a port-unreachable cut short |
| TcpTheorems.ShapeKeeps | internal/stack/backend_windows.go:664-1005 | payload, endpoints, sequence and acknowledgement numbers survive every combination of branches; the data offset is right, and the total length if and only if the packet with its new option length, known from packet and profile beforehand, is under 65536 bytes; it grows by at most 12 |
| TcpTheorems.SentLengthIs | internal/stack/backend_windows.go:664-964 | the option length that leaves, from the length that came, the SACK places, the flow and the profile alone |
| TcpTheorems.RestKeeps | internal/stack/backend_windows.go:680-1005 | behind the growth no stage lengthens the options, and with timestamps on none changes their length |
| PacketRules.TcpStageKeeps | internal/stack/backend_windows.go:636-1005 | a TCP packet leaves with every other header byte and its payload, in a size known beforehand, and a total length that is its size if and only if that size is under 65536 bytes |
| PacketRules.EgressKeeps | internal/stack/backend_windows.go:506-600 | for every whole IPv4 packet: addresses and protocol kept, TTL and identification as the profile wants, the size known beforehand, the total length right if and only if that size is under 65536 bytes; TCP keeps ports, numbers and payload with a true data offset, everything else its bytes |
| WireHeader.HeaderOnWire | internal/stack/backend_windows.go:506-600 | each byte of the IPv4 header that leaves but the total length, under every profile: TTL, the DF bit alone of its byte, the identification in network order, and all others as they came |
| WireHeader.BehindHeader | internal/stack/backend_windows.go:1007-1048 | behind the header of a packet that is not TCP only the ICMP code can change: to 0, on an echo reply of a Windows profile |
| WireHeader.XorShiftPermutes | internal/stack/backend_windows.go:535-571 | the generator of random identifications never reaches one state from two others, so a nonzero seed never becomes 0 |
| TcpTheorems.EmittedOnWire | internal/stack/backend_windows.go:686-987 | the bytes on the wire are the encoding of the option list chosen by profile, old options and flow |
| TcpTheorems.EmittedLegal | internal/stack/backend_windows.go:686-987 | every template block is a legal option list with MSS first and no option across its end, and the scan finds a timestamp in it exactly when the template in force carries one |
| TcpContents.EmittedSays | internal/stack/backend_windows.go:686-964 | every template block carries once, and first, the MSS the packet came with or else the profile's, no window scale but the profile's, SACK and timestamps only for profiles that have them |
| TcpContents.RetimeReads | internal/stack/backend_windows.go:982-987 | every timestamp of a re-timed list carries a reading of the clock |
| TcpContents.WindowOnWire | internal/stack/backend_windows.go:680-684 | the window on the wire, by guards on packet, profile and flow: zero on a RST that asks for it, else the 16-byte, ECN or profile value, else the packet's own |
| TcpContents.FlagsOnWire | internal/stack/backend_windows.go:989-1003 | of all flags only ECE can change, and only on a SYN-ACK; it leaves set if and only if the profile confirms ECN and it was set or the SYN is cached without timestamp |
| TcpAnswers.EstablishedTimestamps | internal/stack/backend_windows.go:966-972 | a segment without SYN whose options are two NOPs and a timestamp leaves, under a profile with timestamps and window scale, with the profile's clock as TSval and the same TSecr; every other one leaves with its own option bytes |
| TcpAnswers.WindowsRead | internal/stack/backend_windows.go:686-695 | from a Windows host's block the MSS is read, the echo never, and SACK exactly when permitted or when one of two clock bytes is 4 |
| TcpAnswers.LinuxRead | internal/stack/backend_windows.go:686-735 | from a Linux host's block MSS and echo are read, unless the upper half of its TSval looks like a timestamp option, and SACK exactly when permitted or when one of three clock bytes is 4 |
| TcpAnswers.WindowsHostAnswer | internal/stack/backend_windows.go:686-839 | the SYN-ACK of a Windows host leaves with exactly the list written out for the profile's family, for Windows XP, Windows with and without timestamps, Linux and macOS |
| TcpAnswers.LinuxHostAnswer | internal/stack/backend_windows.go:686-839 | so does the SYN-ACK of a Linux host, its own echo kept where the cache has none |
| TcpAnswers.ShortHostAnswer | internal/stack/backend_windows.go:668-839 | so does one of a host without timestamps that grows by eight bytes |
| TcpAnswers.EcnAnswer | internal/stack/backend_windows.go:841-881 | the answer to a SYN without timestamps is MSS, NOP, NOP, SACK, NOP, scale and NOPs, with SACK whenever the profile has it, whatever the host's own answer said |
| TcpAnswers.SynSent | internal/stack/backend_windows.go:883-918 | an outbound 12-byte SYN leaves with the list of the Linux or the Windows family, the host's MSS, and the profile's scale |
| TcpAnswers.SixteenSent | internal/stack/backend_windows.go:920-933 | a block without scale keeps its list, and its TSval alone becomes a clock reading |
| TcpAnswers.SixteenShrunk | internal/stack/backend_windows.go:935-964 | under a Windows profile without timestamps it leaves as MSS, two NOPs and SACK or NOPs |
| TcpAnswers.OtherLengths | internal/stack/backend_windows.go:664-987 | options of any other length leave as they came but for the re-timing of SYN-ACKs |
| Fingerprints.UbuntuPrints | internal/stack/backend_windows.go:727-763 | under the shipped Ubuntu profile a host's SYN-ACK prints as M5B4ST11NW8 in Nmap's notation |
| Fingerprints.UbuntuGrownPrints | internal/stack/backend_windows.go:668-763 | and so does that of a host without timestamps |
| Fingerprints.UbuntuEcnPrints | internal/stack/backend_windows.go:841-881 | and the answer to a SYN without timestamps as M5B4NNSNW8 |
| Fingerprints.Windows11Prints | internal/stack/backend_windows.go:764-795 | under the shipped Windows 11 profile it prints as M5B4NW8ST11 |
| Fingerprints.Windows10Prints | internal/stack/backend_windows.go:710-726 | under the shipped Windows 10 profile as M5B4NW8NNS, or M5B4NW8 exactly when the host did not permit SACK and no clock byte looks like it |
| Fingerprints.Windows10ShortPrints | internal/stack/backend_windows.go:935-964 | and for a probe without scale as M5B4NNS |
| Fingerprints.SonomaPrints | internal/stack/backend_windows.go:785-839 | under the shipped Sonoma profile as M5B4NW6ST11SLL, unlike its file says |
| Fingerprints.ServerProfile | internal/stack/backend_windows.go:94-157 | what is derived from the shipped Server 2012 profile, its slow clock and echoed ECE included |
| Profiles.ToWinProfile | internal/stack/backend_windows.go:94-157 | what the rewriter derives from a profile file: option count in one byte, kind of the second option, family and congestion flags, the ECN window of two Linux windows, slow timestamps of Windows 6 |
| Profiles.GrowthCovered | internal/stack/backend_windows.go:668-700 | a packet grows only under a profile whose second option is SACK; the template covers the grown bytes if and only if the number of options is not a multiple of 256, so always below 256; else the block ends in zeros |
| Profiles.GrowthLeaks | internal/stack/backend_windows.go:104-121 | a profile of 256 options and a SYN-ACK that leaves with four zero bytes at the end of its options |
| Profiles.LengthsCanFail | internal/stack/backend_windows.go:601-613 | under the Ubuntu profile a SYN-ACK of 65532 bytes with right lengths leaves with a wrong total length |
| TcpContents.SackRepeated | internal/stack/backend_windows.go:785-881 | the list that leaves permits SACK twice if and only if a 20-byte block, grown or not, takes a macOS template that permits it already and no ECN answer replaces it |
| Profiles.SonomaRepeatsSack | internal/stack/backend_windows.go:785-839 | under the shipped macOS Sonoma profile a SYN-ACK with the options of a Windows host leaves with SACK permitted twice |
| TcpTheorems.NoTimestampAnswered | internal/stack/backend_windows.go:841-881 | a SYN-ACK for a cached SYN without timestamp leaves with a list in which no receiver or scan finds one |
| TcpTheorems.TimestampEchoed | internal/stack/backend_windows.go:727-839 | a SYN-ACK for a cached nonzero TSval leaves with that value as TSecr of its first timestamp |
| SynCache.FlowKeyInjective | internal/stack/backend_windows.go:259-262 | two clients have the same key if and only if address and port are the same |
| Backend.WindowsBackend.RecordInboundSyn | internal/stack/backend_windows.go:226-257 | any bytes: a well-formed SYN joins the history that the cache summarises, anything else changes nothing |
| Backend.WindowsBackend.LookupSynFlow | internal/stack/backend_windows.go:289-311 | the cached record under the key of the packet's destination address and port (`SynTrace.KeysMeet`), unless it is past its expiry |
| SynCache.CacheBounded | internal/stack/backend_windows.go:251-256 | after any history the map has at most 4097 entries |
| SynCache.CacheSound | internal/stack/backend_windows.go:226-257 | a cached record is the one of its client's latest SYN |
| SynCache.CacheExact | internal/stack/backend_windows.go:226-257 | a client is cached if and only if it sent a SYN since which the map was not dropped |
| SynCache.CacheComplete | internal/stack/backend_windows.go:226-257 | with at most 4096 clients every one of them is cached |
| SynCache.LookupIsLatest | internal/stack/backend_windows.go:289-311 | a hit is the latest record under the packet's key, at most 4000 ms old; with at most 4096 keys there is a hit whenever there is such a record; `SynTrace.FlowIsAnswered` says the same of addresses, ports and packets |
| SynTrace.CacheIsHistory | internal/stack/backend_windows.go:419-503 | over any trace the outbound packets leave no mark on the cache |
| SynTrace.KeysMeet | internal/stack/backend_windows.go:289-311 | an outbound packet is looked up under the key a SYN was recorded under if and only if the SYN's source address and port, bytes of its header, are the packet's destination address and port |
| SynTrace.FlowIsAnswered | internal/stack/backend_windows.go:226-311 | over any trace: the record found is that of the latest SYN whose source address and port are the packet's destination, at most 4000 ms old, with the timestamp in that SYN's own option bytes; with SYNs from at most 4096 endpoints it is found whenever there was such a SYN |
| SynTrace.SentShaped | internal/stack/backend_windows.go:650-666 | over any trace a SYN-ACK leaves shaped with the record that `SynTrace.FlowIsAnswered` describes |
| SynTrace.NoTimestampForSilentClient | internal/stack/backend_windows.go:841-881 | over any trace, under a Linux profile with options and window scale: when the latest SYN from the packet's destination address and port had no timestamp in its option bytes, the answer is a legal list without one |
| SynTrace.TimestampForTalkingClient | internal/stack/backend_windows.go:668-678 | over any trace: when that SYN's option bytes held a nonzero TSval, the answer is a legal list that echoes it (RFC 7323 section 3.2) |
| IpIds.IdOnWire | internal/stack/backend_windows.go:535-571 | over any trace: under a counting Windows profile the identification is the starting counter plus the number of IPv4 packets sent, TCP and ICMP alike, modulo 65536; under other families ICMP counts its own packets and the rest carry 0; a random profile sends the next value of its generator |
| IpIds.CounterAfter | internal/stack/backend_windows.go:535-571 | after any trace the counter has moved by the number of packets that count, and by no others |
| IpIds.SeedAfter | internal/stack/backend_windows.go:535-571 | after any trace the generator has stepped once for each packet of a random profile |
| HifiProtocol.StepKeeps | internal/stack/backend_windows.go:334-415 | every atomic step of any caller, any watchdog and a crash keeps mutual exclusion, the driver, trip, stop and probe invariants |
| HifiProtocol.RunKeeps | internal/stack/backend_windows.go:334-415 | the invariant holds after every run, and a finished trip stays finished |
| HifiProtocol.ArmedExactlyWhenHeld | internal/stack/hifi_windows.go:61-95 | in every reachable state: mode on needs an open handle; with the mutex free, mode LINUX if and only if b.hifi is set; off after a crash; that Enable gets there is `HifiOutcomes.EnableArms` |
| HifiOutcomes.EnableArms | internal/stack/backend_windows.go:340-375 | from every reachable state with the mutex free, nothing armed and no trip raised, an Enable whose calls succeed returns with the driver in mode LINUX, b.hifi set, and a fresh watchdog if the profile wants one |
| HifiOutcomes.EnableFailsOnlyForTrips | internal/stack/backend_windows.go:340-375 | in every run without a crash, whatever others do: an Enable whose own calls succeed ends its critical section armed unless a trip had been raised |
| HifiOutcomes.DisableDisarms | internal/stack/backend_windows.go:377-394 | a Disable or Close that finds the mutex free turns the driver off, whatever its calls answer, and forgets handle and watchdog |
| HifiOutcomes.StopEnds | internal/stack/backend_windows.go:377-394 | the watchdog it stops ends without a trip, and it returns behind it |
| HifiOutcomes.TripDisarms | internal/stack/backend_windows.go:396-415 | a raised trip turns the driver off, whatever its calls answer, and leaves the flag set |
| HifiProtocol.NeverRearmed | internal/stack/backend_windows.go:396-415 | once a trip's critical section has finished, the driver is off in every later state |
| HifiProtocol.TripsAtFirstRun | internal/stack/connmon_windows.go:71-99 | in every run a watchdog trips if and only if three of its probes failed in a row, and at the first such run |
| HifiProtocol.ProbeKeeps | internal/stack/connmon_windows.go:81-94 | the failure counter is the length of the current run of failures, and reaching three is the first run of three |
| HifiProtocol.NoDeadlock | internal/stack/backend_windows.go:377-394 | in every reachable state, while any call has not returned, some thread that is not waiting can step, whatever its call will answer |
| HifiProtocol.CallReturns | internal/stack/backend_windows.go:334-415 | from every reachable state, so after any interleaving, some schedule of at most 878 steps of threads that can move brings each Enable, Disable or Close to its return, whatever their outcomes: stopping the watchdog outside the mutex can never have made the return impossible |
| HifiProtocol.MoverNearer | internal/stack/backend_windows.go:377-394 | each step of that schedule brings the return nearer: the measure falls |
| HifiControl.Run | internal/stack/connmon_windows.go:71-99 | the loop trips if and only if its probes hold three failures in a row, makes no probe after the first such run, and else makes them all |
| HifiControl.Corrector.Arm | internal/stack/hifi_windows.go:61-75 | arms nothing through an invalid handle or a failed call, else exactly the requested mode |
| HifiControl.Corrector.Disarm | internal/stack/hifi_windows.go:77-85 | the driver is off after a working call on an open handle, else untouched |
| HifiControl.Corrector.Close | internal/stack/hifi_windows.go:87-95 | the handle is invalid afterwards even when closing fails; the driver is off if closing an open handle worked, else as it was; a second close does nothing |
| IpChecksum.AccumulatorBound | driver/mimichifi/mimichifi.h:35-50 | no data of n bytes overflows the 32-bit sum if and only if n is at most 131074 |
| IpChecksum.FoldValue | driver/mimichifi/mimichifi.h:44-46 | folding keeps the value modulo 65535 and turns nothing but zero into zero |
| IpChecksum.IpChecksum16 | driver/mimichifi/mimichifi.h:35-50 | the loops in wrapping 32-bit arithmetic compute the exact one's-complement checksum up to 131074 bytes, and the fold terminates |
| IpChecksum.ChecksumCloses | driver/mimichifi/mimichifi.h:112-121 | with the checksum in place the whole header folds to 0xFFFF (RFC 1071 section 1) |
| IpChecksum.RewriteIpId | driver/mimichifi/mimichifi.h:78-125 | on any bytes: only identification and, when recomputed, checksum bytes change; the header then sums to 0xFFFF; the result says whether anything changed |
| HifiFilter.Filter.SendBuffer | driver/mimichifi/filter.c:1367-1422 | a frame is read and written within its mapped buffer, VLAN tag or not, and outside its IP packet nothing changes |
| HifiFilter.Filter.SendList | driver/mimichifi/filter.c:1366-1423 | over a list of buffers each frame that draws an identification gets the next number, the others get none |
| HifiFilter.Filter.Send | driver/mimichifi/filter.c:1341-1424 | large-send lists go out unchanged; across all others each frame that draws an identification gets exactly the number after the one drawn last, the counter ends behind the last one, and checksums are recomputed unless the NIC does it |
| HifiFrames.TcpLeavesWithZero | driver/mimichifi/mimichifi.h:78-125 | with the driver armed a TCP packet leaves with identification 0 in header bytes 4 and 5, a right checksum where recomputed, and no other byte changed |
| HifiFrames.IcmpLeavesCounted | driver/mimichifi/mimichifi.h:78-125 | an ICMP packet leaves with the next number there |
| HifiFrames.OthersUntouched | driver/mimichifi/mimichifi.h:78-125 | all others, and all in another mode, leave as they came |
| HifiFrames.TcpFrame | driver/mimichifi/filter.c:1367-1422 | so a frame around a TCP packet, behind a VLAN tag or not, keeps its link header and carries identification 0 |
| HifiFrames.IcmpFrame | driver/mimichifi/filter.c:1367-1422 | one around an ICMP packet draws a number and carries it |
| HifiFrames.OtherFrame | driver/mimichifi/filter.c:1367-1422 | one of another type or too short for an IPv4 header is left alone and draws nothing |
| HifiFrames.KnownChecksum | driver/mimichifi/mimichifi.h:35-50 | the checksum of a known header is 0xB861 |
| Session.CaptureSession.ExtractExchanges | internal/capture/session.go:113-199 | what the loop appends is the distinct packets grouped into maximal runs of probes with the run of responses behind each |
| Session.MachineGroups | internal/capture/session.go:163-198 | closing an exchange at each probe after a response computes exactly those alternating runs, from any state at a boundary |
| Session.DistinctOnce | internal/capture/session.go:142-161 | packets that count are captured, not empty, and pairwise different in direction or payload |
| Session.DistinctCovers | internal/capture/session.go:142-161 | every non-empty payload captured is among those that count, in its direction |
| Session.DuplicateIgnored | internal/capture/session.go:133-161 | inserting an empty packet or a repetition of an earlier one, anywhere behind it, changes no exchange at all |
| Session.ExtractConserves | internal/capture/session.go:113-199 | probes concatenate to the distinct inbound payloads, responses to the distinct outbound ones from the first probe on; probes are not empty, indices count up, only the last response may be missing |
| SessionCases.ExtractTells | internal/capture/session.go:113-199 | every counted packet from the first probe on is in exactly one exchange, in order; each exchange has the payloads of its packets, the time of its first probe and the first time of a response, and its number |
| SessionCases.DistinctExactly | internal/capture/session.go:142-161 | each payload counts once in each direction |
| Template.FindStablePattern | internal/capture/template.go:290-316 | the pattern is empty below four bytes, else the anchored first bytes, at most eight, in printable form |
| Template.GenerateSignature | internal/capture/template.go:271-287 | lengths from the probe's to 100 more, at offset 0, with that pattern |
| Matcher.ParseHexPattern | internal/services/matcher.go:69-87 | terminates on any string and decodes valid escapes only, malformed ones standing for themselves |
| Matcher.ParsePatternWithWildcards | internal/services/matcher.go:89-123 | terminates on any string and splits it at wildcards that are not part of an escape |
| Matcher.MatchWithWildcards | internal/services/matcher.go:180-205 | true exactly when the pieces match one behind the other, never reading past the data |
| Matcher.Compile | internal/services/matcher.go:33-64 | which of prefix, pieces and contained bytes a signature compiles to |
| Matcher.MatchProbe | internal/services/matcher.go:136-178 | a probe's verdict on any data under any lengths and offset, negative ones included |
| Matcher.Match | internal/services/matcher.go:125-134 | the first probe in order that accepts, or none if none does |
| Matcher.PiecesOfTokens | internal/services/matcher.go:89-205 | parsing a printed pattern and matching its pieces is matching each token against the byte at its place |
| Matcher.PatternMeaning | internal/services/matcher.go:24-205 | a pattern of literals, escapes and wildcards accepts exactly the data of fitting length whose byte behind the offset at each token's place is one it stands for |
| PatternCases.PatternReads | internal/services/matcher.go:33-205 | with lengths that bound only when positive: each literal is its byte, each escape the value of its two hexadecimal digits in either case, each dot any byte |
| PatternCases.ContainsReads | internal/services/matcher.go:136-155 | a part that must occur is found anywhere, and pattern and offset are then not looked at |
| PatternCases.AnchorsIgnored | internal/services/matcher.go:49-51 | a caret before and a dollar behind a pattern mean nothing |
| PatternCases.NothingToRead | internal/services/matcher.go:157-178 | without pattern and part only the lengths and the offset count, and a probe without least length accepts no data alone |
| Template.SignatureMeaning | internal/capture/template.go:271-321 | what the generator prints the matcher reads: a generated signature accepts exactly lengths n to n+100 that start with the probe's first eight bytes (from four bytes on); an empty probe's accepts only the empty buffer |
| Template.ProbeRecognised | internal/capture/template.go:271-321 | every captured probe is accepted by its own signature |
| PatternCases.GeneratedAccepts | internal/capture/template.go:271-321 | a generated signature accepts exactly what is up to 100 bytes longer than its probe and has the same byte at each of the first eight places the probe has, from four bytes on |
| PatternCases.ShownBytes | internal/capture/template.go:290-316 | printable bytes without a meaning in regular expressions show as themselves, all others as escapes of two lower-case digits |
| Template.DetectDynamicFields | internal/capture/template.go:323-378 | the fields are the sorted, separated, maximal runs of offsets where some capture differs or is too short, each typed by its length; one capture gives none |
| PatternCases.RunsExactly | internal/capture/template.go:323-378 | an offset is outside all detected fields exactly when every capture reaches it and all have the same byte there; fields are in order with a gap between any two |
| ResponderContents.DetectedTypes | internal/capture/template.go:394-407 | a field of 4 bytes is replayed as a Unix time, one of 8 as a FILETIME, one of 16 as a GUID, all others as random bytes |
| Responder.ApplyRule | internal/services/responder.go:282-503 | in place, for every type of the switch, every rule, response, probe and supply: the response after one rule; it fails on a slice, or is refused and untouched, exactly under the stated conditions on the rule, the two lengths and the supply; what each type then writes is said in `ResponderContents` |
| ResponderContents.CallIdRule | internal/services/responder.go:436-457 | a response made of DCE/RPC fragments leaves as the same fragments, each with bytes 12 to 15 those of a probe of at least 16 bytes that starts with 5; for any other probe it leaves as captured |
| ResponderContents.RefusedExactly | internal/services/responder.go:282-503 | without negative lengths no rule fails, and one is refused if and only if it starts outside the response or ends behind it, is under 8 bytes for a FILETIME or 16 for a GUID, lacks randomness, address or credential, or has no known type |
| ResponderContents.TimeRules | internal/services/responder.go:293-321 | the time now, the boot time or the Unix time stands at the offset and nowhere else, 4 bytes of it where the rule has no 8 |
| ResponderContents.RandomRules | internal/services/responder.go:322-337 | 16 bytes of a GUID, or as many random bytes as the rule is long |
| ResponderContents.EchoRule | internal/services/responder.go:349-354 | the probe's bytes at the same offset, or nothing where the probe is shorter |
| ResponderContents.NameRules | internal/services/responder.go:355-391 | the beginning of the NetBIOS name, host name or domain, cut at the rule's length |
| ResponderContents.MacRule | internal/services/responder.go:392-403 | six bytes of a MAC address, if the address has six and the rule room for them |
| ResponderContents.NbnsRules | internal/services/responder.go:404-425 | a NetBIOS-encoded name where the rule has 16 bytes |
| ResponderContents.LeakRule | internal/services/responder.go:479-503 | the leaked credential filled up with zeros; without a store nothing, for an unknown id a refusal |
| ResponderContents.DateRule | internal/services/responder.go:426-435 | the date behind the first date header, if there is one with room behind it |
| ResponderContents.OtherRules | internal/services/responder.go:338-503 | placeholders change nothing, unknown types are refused, the host's address replaces the captured one |
| Responder.EchoFailsByProbe | internal/services/responder.go:349-353 | one echo rule of negative length fails with a probe of 20 bytes and does nothing with one of 3 |
| HostIp.ReplaceAddress | internal/services/responder.go:459-477 | the scan over the bytes it changes itself, in place |
| HostIp.GoneExactly | internal/services/responder.go:459-477 | no captured address is left in any response if and only if the addresses differ and the host's does not complete a captured one together with bytes before it |
| HostIp.CanStayBehind | internal/services/responder.go:459-477 | seven bytes and two addresses for which one is left |
| Responder.ApplyRules | internal/services/responder.go:251-256 | in place: all rules in order up to the first that is refused or fails |
| Responder.RulesStopExactly | internal/services/responder.go:251-256 | replay fails, or is refused, if and only if the first rule not accepted is one that fails, or one that does not; of probe and response the lengths alone decide |
| Responder.FieldPatched | internal/services/responder.go:292-336 | the rule of a detected field is never refused and writes exactly the bytes of that field |
| Responder.FieldsPatched | internal/services/responder.go:251-256 | after all rules every field holds what was supplied for it and no byte outside the fields differs |
| Responder.ReplayKeepsAgreed | internal/capture/template.go:139-152 | what the detector marks the responder accepts: replay succeeds, keeps every byte on which all captures agree and renews every field |
| Responder.EchoCallId | internal/services/responder.go:436-457 | the walk in place terminates and stays in bounds on any response |
| Responder.WalkStampsFragments | internal/services/responder.go:436-457 | for any bytes: the call_id field of each leading fragment holds the probe's call_id and no other byte changes |
| Responder.AllFragments | internal/services/responder.go:436-457 | a response made of connection-oriented fragments (C706 section 12.6) has every one of them stamped |
| Responder.FragmentsAndRest | internal/services/responder.go:436-457 | every response is its leading fragments followed by something that is not one |
| Asn1.Asn1Build | internal/honeypot/rdp/ntlm.go:135-151 | the filled buffer is tag, length octets and content, for any content |
| Ber.BerLength | internal/capture/snmp_filter.go:132-150 | the accumulated length in wrapping 64-bit arithmetic, and where the content starts |
| Ber.BerDecodeAt | internal/capture/snmp_filter.go:86-130 | the recursive reader terminates on any bytes and returns a tree, malformed, or the slice failure, as specified |
| Ber.BerEncodedLen | internal/capture/snmp_filter.go:152-162 | the size an element's header gives |
| Ber.SizeOfContent | internal/capture/snmp_filter.go:112-125 | the size by which the child loop advances is never zero and ends inside the content, so the loop terminates |
| BerTheorems.RoundTrip | internal/capture/snmp_filter.go:86-162 | every tree with content under 65536 bytes is decoded from its encoding, wherever it stands and whatever follows, and its encoded length is exact |
| BerTheorems.PanicsExactly | internal/capture/snmp_filter.go:86-130 | on any data the recursive reader fails on its slice if and only if a header it gets to, at any depth, has a length that is negative or wraps past the end |
| BerTheorems.RequestPanicsExactly | internal/capture/snmp_filter.go:39-78 | so does reading the identifiers of a whole packet |
| BerTheorems.PanicsExactlyOnOverrun | internal/capture/snmp_filter.go:100-108 | for one header: the slice fails if and only if its 64-bit length is negative or wraps past the end |
| BerTheorems.LongLengthPanics | internal/capture/snmp_filter.go:141-149 | ten bytes on which it does |
| BerTheorems.NeverPanics | internal/capture/snmp_filter.go:86-130 | when every header that is reached has at most seven length octets it never fails, whatever the contents |
| Ber.DecodeOID | internal/capture/snmp_filter.go:164-187 | the loops terminate on any bytes; a truncated subidentifier gives nothing |
| BerTheorems.OidRoundTrip | internal/capture/snmp_filter.go:164-187 | the reader inverts X.690 section 8.19 if and only if the second arc is below 40 |
| Ber.ExtractSNMPRequestOIDs | internal/capture/snmp_filter.go:39-78 | which identifiers are returned for any packet, malformed ones included |
| BerTheorems.RequestRead | internal/capture/snmp_filter.go:39-78 | the identifiers of every encoded GET, GETNEXT or GETBULK request are read back in order, whatever follows the packet |
| BerCases.OpaqueElement | internal/capture/snmp_filter.go:86-130 | an element whose tag is not SEQUENCE, GET, GETNEXT or GETBULK is read as its bytes, whatever they are |
| BerCases.OpenedElement | internal/capture/snmp_filter.go:86-130 | those four are read as the elements they hold |
| BerCases.CutShort | internal/capture/snmp_filter.go:86-130 | an element cut short anywhere is malformed |
| BerCases.NoIndefiniteLength | internal/capture/snmp_filter.go:132-150 | an indefinite length is malformed, and so is an end behind the tag |
| BerCases.OtherPduIgnored | internal/capture/snmp_filter.go:39-78 | a message with any other request gives no identifiers |
| BerCases.SysDescrRead | internal/capture/snmp_filter.go:39-78 | the 40 bytes of a GET for sysDescr.0 give 1.3.6.1.2.1.1.1.0 |
| Tpkt.WriteTPKT | internal/honeypot/rdp/tpkt.go:94-106 | appends the framed payload, or refuses over 65531 bytes and appends nothing |
| Tpkt.WriteCredSSPPDU | internal/honeypot/rdp/tpkt.go:85-92 | appends the PDU in the framing asked for |
| Tpkt.ReadCredSSPPDU | internal/honeypot/rdp/tpkt.go:18-41 | consumes exactly one PDU from any stream, or reports an error |
| Tpkt.ReadASN1PDU | internal/honeypot/rdp/tpkt.go:43-57 | a raw PDU is returned with its tag and length octets |
| Tpkt.ReadASN1Length | internal/honeypot/rdp/tpkt.go:59-83 | up to two length octets; anything else is an error |
| Tpkt.ReadBackExactly | internal/honeypot/rdp/tpkt.go:18-106 | a PDU comes back as it was sent if and only if it is wrapped with at most 65531 bytes or raw and self-delimiting |
| Tpkt.BuiltIsElement | internal/honeypot/rdp/ntlm.go:135-151 | what asn1Build makes is self-delimiting if and only if its tag is not 3 and its content is under 65536 bytes |
| Tpkt.CutShort | internal/honeypot/rdp/tpkt.go:18-83 | a PDU cut short anywhere is an error, never a shorter PDU |
| Tpkt.StreamRoundTrip | internal/honeypot/rdp/tpkt.go:18-106 | any sequence of PDUs of either framing, written back to back, is read as the same payloads and framings |
| TpktWire.WrappedOnWire | internal/honeypot/rdp/tpkt.go:94-106 | a wrapped PDU is a 3, a 0, its whole size in two bytes and the payload; over 65531 bytes it is refused |
| TpktWire.WrappedExactly | internal/honeypot/rdp/tpkt.go:18-41 | exactly the streams that start so, whatever their second byte, are read as that wrapped PDU |
| TpktWire.RawExactly | internal/honeypot/rdp/tpkt.go:43-83 | exactly the streams that start with a tag other than 3, one to three length octets and as much content are read as that raw PDU |
| TpktWire.OtherLengthsRefused | internal/honeypot/rdp/tpkt.go:59-83 | indefinite and longer lengths are refused |
| CredSsp.FindNTLMType | internal/honeypot/rdp/credssp.go:52-61 | the message from the first signature on, if long enough and of the wanted type |
| CredSsp.WrappedMessageFound | internal/honeypot/rdp/credssp.go:14-22 | from a TSRequest around any message that starts with the signature, of any size, exactly that message is found if its type is wanted, and nothing otherwise |
| CredSsp.NoEarlierMagic | internal/honeypot/rdp/credssp.go:52-61 | no DER header, and no header's end together with the message's start, looks like the signature |
| CredSsp.BuildTargetInfo | internal/honeypot/rdp/ntlm.go:53-69 | the five pairs and the end marker in order |
| CredSsp.TargetInfoRead | internal/honeypot/rdp/ntlm.go:53-69 | a client's reader (MS-NLMP section 2.2.2.1) gets the five pairs back |
| CredSsp.BuildNTLMChallenge | internal/honeypot/rdp/ntlm.go:16-51 | the zeroed buffer filled field by field is the specified message, for all names |
| CredSsp.TargetNameRead | internal/honeypot/rdp/credssp.go:81-97 | the name field reads back as the domain name if and only if the name is under 65536 bytes |
| CredSsp.TargetInfoFieldRead | internal/honeypot/rdp/credssp.go:81-97 | the information field reads back as all five pairs |
| CredSsp.ChallengeFound | internal/honeypot/rdp/credssp.go:14-61 | the server's own challenge, wrapped, is found as type 2 and as no other type |
| CredSspReader.TokenIsMessage | internal/honeypot/rdp/credssp.go:14-22 | a DER reader that knows nothing of the builder finds version 6 and one token, whose state is incomplete and whose response token is the message, if and only if the message has at most 65479 bytes |
| CredSspReader.RequestRead | internal/honeypot/rdp/credssp.go:14-22 | up to that size the TSRequest holds exactly version and token in elements 0 and 1 |
| CredSspReader.ResponseRead | internal/honeypot/rdp/ntlm.go:71-90 | the token holds state, mechanism and response in elements 0, 1 and 2, the mechanism being NTLM's |
| CredSspReader.OneSequenceShort | internal/honeypot/rdp/credssp.go:14-22 | a reader that asks for the SEQUENCE OF SEQUENCE of MS-CSSP section 2.2.1.1 finds none |
| CredSspReader.FixedFields | internal/honeypot/rdp/ntlm.go:16-51 | signature, type 2, flags 0xE28A8215, server challenge, eight zeros and version stand at their offsets, numbers little-endian |
| CredSspReader.FlagsAnnounce | internal/honeypot/rdp/ntlm.go:16-51 | the flags announce Unicode, the target name, target information, the version, NTLM and extended session security |
| CredSspReader.PairsById | internal/honeypot/rdp/ntlm.go:53-69 | domain and computer names under identifiers 2, 1, 4 and 3 and the time under 7, read back by a client |
| Md4.Md4Sum | internal/honeypot/smb/credentials.go:95-188 | for messages of every length the digest is that of the table-driven definition in RFC 1320 section 3 |
| Md4.Compress | internal/honeypot/smb/credentials.go:116-180 | the 48 unrolled operations on four variables are the 48 rotating operations of the tables |
| Md4.Round1 | internal/honeypot/smb/credentials.go:122-138 | the unrolled first round is the table's first round |
| Md4.Round2 | internal/honeypot/smb/credentials.go:140-156 | the unrolled second round is the table's second round |
| Md4.Round3 | internal/honeypot/smb/credentials.go:158-174 | the unrolled third round is the table's third round |
| Md4.FourOperations | internal/honeypot/smb/credentials.go:123-126 | four operations of the rotating definition write each named register once |
| Md4.Pad | internal/honeypot/smb/credentials.go:98-108 | the padding loop terminates and makes the padding of RFC 1320 section 3.1 and 3.2 |
| Md4.PaddedLength | internal/honeypot/smb/credentials.go:98-108 | the padded length is a multiple of 64, always |
| Md4.PaddingInjective | internal/honeypot/smb/credentials.go:98-108 | two messages of any lengths with the same padding are the same message |
| Md4Vector.AbcDigest | internal/honeypot/smb/credentials.go:95-188 | the digest of "abc" is the one printed in section A.5 of RFC 1320 |
| Detector.CompactShared | internal/defense/detector.go:92-100 | compacting within the same backing array, reading ahead of writing, keeps exactly the newer hits in order and sums them |
| Detector.SrcState.Score | internal/defense/detector.go:91-109 | the locked section on the backing array: hits compacted in place, latest block and verdict after one event |
| Detector.Detector.Write | internal/defense/detector.go:70-116 | any event: ignored ones change nothing, others change the track of their own source and block as specified |
| Detector.SourcesIndependent | internal/defense/detector.go:70-116 | after any run the track of a source is that of its own events alone |
| Detector.BlockIndependent | internal/defense/detector.go:70-116 | whether an event blocks depends on its source's own events alone |
| Detector.KeepsWindowExactly | internal/defense/detector.go:91-102 | the hits kept are the history's hits in the window if and only if none of these had already left a later event's window |
| Detector.KeepsWindow | internal/defense/detector.go:91-102 | with non-decreasing times they always are |
| Detector.OutOfOrderForgets | internal/defense/detector.go:91-102 | three events out of order for which they are not |
| Detector.BlocksExactly | internal/defense/detector.go:102-109 | with non-decreasing times a source is blocked if and only if its whole history's weights in the window reach the threshold and the cooldown since its latest block has passed |
| Detector.BlocksApart | internal/defense/detector.go:104-109 | with a cooldown of at least -1, two blocks of one source are more than the cooldown apart, in whatever order events come |
| Detector.NextBlockApart | internal/defense/detector.go:104-109 | with any cooldown, negative ones included, two consecutive blocks of one source are |
| Detector.ApartExactly | internal/defense/detector.go:70-116 | for every window and threshold: in all runs of events any two blocks of one source are more than the cooldown apart if and only if the cooldown is at least -1 |
| Detector.BackInTime | internal/defense/detector.go:70-116 | for every other cooldown a run of failed logins of one source with two blocks that are not |
| Detector.RunBlocksExactly | internal/defense/detector.go:70-116 | over any run of mixed events in time order an event blocks if and only if it is scored, its source's whole history of weights in the window reaches the threshold, and the cooldown since the last event that blocked that source has passed |
| Detector.RunBlocksApart | internal/defense/detector.go:70-116 | over any run of mixed events in any order two blocks of one source are more than a cooldown of at least -1 apart |
| DetectorCases.DefaultStrikes | internal/defense/detector.go:20-116 | under the default settings, in a burst within a minute from one source, the first block comes with the fourth failed login, the sixth captured credential, maze descent or download, or the twelfth enumeration, connection or successful login |
| DetectorCases.BlocksByScore | internal/defense/detector.go:20-109 | event by event, without the detector's own functions: in a run in time order an event blocks if and only if it has a source and a weight, the weights of the source's events less than a window ago reach the threshold with it, and it comes more than the cooldown after the last block; a cooldown of the largest duration is never over |
| DetectorCases.NeverScored | internal/defense/detector.go:70-79 | block events, events without a source and all other types change nothing |
| DetectorCases.StampsCount | internal/defense/detector.go:80-83 | an event counts at its own time, and at the time of writing only when it has none |
| Maze.PickUnique | internal/deception/maze.go:56-72 | terminates for every finite set of used names and every generator state, and returns what the specification picks |
| Maze.UsedNumberBounded | internal/deception/maze.go:65-71 | a numbered name can only be used up while its number has no more digits than the longest used name is long |
| Maze.PickIsNew | internal/deception/maze.go:56-72 | the name is unused, and a corpus word with a decimal number or nothing behind it |
| Maze.MazeChildren | internal/deception/maze.go:74-102 | the listing is a function of path, depth and settings: asking again gives the same children |
| Maze.NamesDistinct | internal/deception/maze.go:74-132 | all names in any listing differ, and its nodes carry their own paths |
| Maze.FirstIsDirectory | internal/deception/maze.go:74-102 | without a depth limit and with at least one directory a level, a listing starts with a directory one level deeper |
| MazeCounts.EntryCounts | internal/deception/maze.go:74-102 | every listing has between the configured least and most directories, none at the depth limit, each one level deeper, and behind them between the configured least and most files |
| MazeCounts.DefaultCounts | internal/deception/maze.go:74-102 | by default three to seven directories and two to five files |
| MazeCounts.NextStateUndone | internal/deception/maze.go:37-40 | the generator steps back by a multiplication, so no two states lead to one |
| MazeNames.PickIsFirst | internal/deception/maze.go:56-72 | the name is the first unused one that successive draws propose, five plain words and then words numbered 1, 2 and so on, and no draw is made beyond it |
| MazeNames.ListingStarts | internal/deception/maze.go:74-102 | the path's hash is the generator's first state: the first draw gives the number of directories, the second that of files, the third the first directory's name |
| MazeNames.EntryPaths | internal/deception/maze.go:91-101 | an entry's own path is its directory's, a backslash and its name |
| MazeNames.DecimalValue | internal/deception/maze.go:65-71 | numbers are written in decimal without leading zeros |
| Tree.FindChild | internal/deception/tree.go:155-169 | explicit children first, then generated ones, by folded name |
| TreeLookup.ChildExactly | internal/deception/tree.go:155-187 | what is found is the first entry of the whole listing, planted ones before generated, whose name has the same characters up to the case of letters; nothing is found only if there is none |
| TreeLookup.AlikeResolve | internal/deception/tree.go:121-169 | neither the case of a path or its root's name nor the kind of its separators makes a difference |
| Tree.ResolvePath | internal/deception/tree.go:121-153 | the node reached by membership for any path, or none |
| Tree.ChildIsListed | internal/deception/tree.go:155-187 | nothing is found that is not listed |
| Tree.ResolveStep | internal/deception/tree.go:121-169 | resolving a path with one more plain component is finding that child of what the path resolves to |
| Tree.ListedIsFound | internal/deception/tree.go:155-187 | every entry of any maze node's listing, planted or generated, is found by its own name if and only if no two different entries have names that fold alike |
| Tree.GoodListings | internal/deception/maze.go:74-102 | with fold-safe word lists no listing has two names that fold alike |
| Tree.ListedResolves | internal/deception/tree.go:121-187 | with such word lists every generated entry of any maze node is what its path resolves to, unless a planted entry has its name |
| Tree.PlantedResolves | internal/deception/tree.go:121-187 | every planted entry that is the first of its name is what its path resolves to, in a maze node or not |
| Tree.DirectoryAtEveryDepth | internal/deception/tree.go:121-169 | without a depth limit a directory resolves at every depth below any maze directory, planted entries or not, in which none of them hides the first generated entry |
| Tree.DescendSplit | internal/deception/tree.go:130-153 | resolving two stretches of components is resolving the second from where the first ends |
| Ftp.Session.Dispatch | internal/honeypot/ftp/server.go:319-334 | after CWD the directory is the cleaned path of the argument, with code 250, if the tree resolves that path to a directory, and else the old one, with code 550; after CDUP it is the cleaned path of '..'; other commands leave it |
| FtpLaws.VisitEntry | internal/honeypot/ftp/server.go:319-334 | CWD to an entry that the working directory finds by its own name enters it if it is a directory and CDUP leads back; to a file it is refused with 550 and changes nothing |
| FtpLaws.EntryAndBack | internal/honeypot/ftp/server.go:475-490 | the path of a found entry's name resolves to that entry, and '..' from there is the old path |
| FtpLaws.FixedArguments | internal/honeypot/ftp/server.go:475-490 | an empty argument and a dot stay, a slash goes to the root, two dots go up |
| FtpLaws.JoinedArguments | internal/honeypot/ftp/server.go:475-490 | two stretches with a slash between them are one after the other |
| FtpLaws.DotsPassedOver | internal/deception/tree.go:139-143 | the tree passes over dot components |
| Ftp.ResolvedPathIs | internal/honeypot/ftp/server.go:475-490 | cleaning the joined string is reducing the argument's components onto the directory's |
| Ftp.ResolvedComponents | internal/honeypot/ftp/server.go:475-490 | whatever the argument, the result has no dot components, no separators and no backslashes |
| Ftp.TreeFields | internal/honeypot/ftp/server.go:492-496 | the tree descends by exactly the components of the cleaned path |
| Ftp.PrefixResolves | internal/deception/tree.go:130-153 | every directory above one that resolves resolves too, so CDUP needs no check |
| Ftp.ParentParts | internal/honeypot/ftp/server.go:331-333 | CDUP drops one component and stays at the root |
| Ftp.DirectoryResolves | internal/honeypot/ftp/server.go:319-333 | after every sequence of commands the directory is an absolute cleaned path without '..' that resolves in the tree |

## Left out

- WinDivert, NDIS, WFP and Win32 calls, sockets, TLS, goroutine scheduling below atomic steps, logging, configuration loading and the debug environment variables.
- IP and TCP checksums of rewritten packets: the WinDivert helper that fills them in is not part of this model.
- Backend.WindowsBackend.ApplyTCP: takes the header to lie inside the packet (ihl at most its length), because slicing beyond it is what the code itself does; applyEgress has the same demand for TCP packets.
- Backend.WindowsBackend.RecordInboundSyn: times are unbounded milliseconds, because the 64-bit tick counter wraps only after half a billion years.
- HifiProtocol.ArmedExactlyWhenHeld: speaks of the mode as the only client drives it, because another process holding a control handle could arm the driver on its own.
- HifiProtocol.StepKeeps: profile checks and log lines of Enable are part of no step, because they touch none of the shared state; closing a handle is taken to succeed, because CloseHandle on a valid handle does, and a failing one is modelled in HifiControl.
- HifiProtocol.CallReturns: gives a schedule, not all fair ones, because a lock that other threads keep taking is a matter of the Go runtime; assumes that system calls return.
- Profiles.ToWinProfile: folds ASCII letters only, and leaves out the fields for quoted ICMP headers and the high-fidelity tier, because nothing modelled reads them.
- HifiFilter.Filter.Send: the large-send and checksum-offload requests and the mapped view of each buffer are inputs, and offsets do not wrap at 32 bits, because NDIS keeps frames far smaller.
- Session.CaptureSession.ExtractExchanges: takes packets in capture order, because the time sort used for LLMNR is unstable; session locks and the tracker of many sessions are not modelled.
- Matcher.Match: profile-dependent probe requirements and a probe's configuration beyond its signature are not modelled, because they only filter the list beforehand.
- Responder.ApplyRule: what the options, the credential store and the parsers of addresses give, NetBIOS encoding and date printing included, are inputs, because they are string functions apart from the rewriting; text substitution in the template before the rules is not modelled; a number cut off by the end of the response is a failure whose partial bytes are not said.
- Responder.ReplayKeepsAgreed: assumes the random source does not fail, because its failure refuses the response, and a response under 2^63 bytes, as every Go slice is.
- Ber.DecodeOID: returns the arcs, because joining them with dots adds nothing.
- BerTheorems.NeverPanics: takes data of at most 2^63 - 2^56 bytes, far beyond any packet, so that a seven-octet length cannot wrap by being added to an offset.
- CredSsp.BuildNTLMChallenge: names are their UTF-16 bytes, because the Unicode conversion is library code.
- Md4.Md4Sum: the HMAC and key derivation around it are not modelled.
- Detector.Detector.Write: durations are those that can be negated and scores do not overflow, because a sum of weights of at most 3 would need 2^61 hits; the blocker behind it is not modelled.
- DetectorCases.DefaultStrikes: takes times more than five minutes after zero, because a zero time is the year 1 and no event is that old.
- Maze.MazeChildren: file contents and timestamps are not modelled; the path hash is an arbitrary function, because nothing proved depends on it.
- Tree.FindChild: folds ASCII letters only, because Unicode case folding is library code and all generated names are ASCII.
- Tree.GoodListings: takes fold safety of the word lists as a condition; the shipped lists themselves, 104 words that meet it, are not part of this model.
- Ftp.DirectoryResolves: does not say that the directory is a directory, because generated files carry a maze path too, so a path can lead through one and CDUP back to it; the maximum-depth bound fails for the same reason.
- Ftp.Session.Dispatch: CWD and CDUP only, with path.Clean as its documentation defines it for rooted paths; transfers and login are not modelled.
- The eBPF variant of the egress rewriter, the control transport, installers and service managers, and the lab scripts.
