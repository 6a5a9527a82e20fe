# Verified model of the IDS reverse proxy

The repository puts a reverse proxy behind kernel filters. Clients are admitted and relayed to one server; an XDP
program may limit the message rate or the bandwidth; a detector counts packets to monitored ports and puts suspects
on a block list that another XDP program enforces. This project models that decision logic in Dafny and proves what
it guarantees over whole runs: every packet trace, every sequence of calls, every interleaving of threads.

`dafny verify dfyconfig.toml` checks the project.

| file | models |
|---|---|
| `Frames.dfy` | raw frames, the header parsers' bounds checks and byte order |
| `Sequences.dfy`, `Traces.dfy` | histories; packet traces with a clock |
| `RateLimiting.dfy` | the 27-messages-per-window limiter |
| `BandwidthLimit.dfy` | the bit-budget limiter |
| `DottedText.dfy`, `Words.dfy`, `IPTools.dfy` | decimal text, `strtok`, `atoi`; words as integers; the address conversions |
| `IpBlock.dfy`, `BlockIP.dfy` | the kernel's address filter and the block list behind it |
| `PortScan.dfy` | the port-scan detector, down to the dropped frame |
| `SockLimiting.dfy` | the admission counts |
| `Relay.dfy`, `ReverseProxy.dfy` | one handler thread; the accept loop and all handler threads together |
| `Connections.dfy` | whose bytes a handler reads when socket numbers are used again |

Code that updates state is a class whose methods are proved equal to a step function on values (`View()` is the
abstraction). The step functions are then characterised over all histories, in terms of what went in and
what came out: arrival times, packet lengths and verdicts; calls, outside answers and results; moves; bytes delivered.

## What the code does, where that differs from what it says

- The rate limiter keeps 27 messages per *fixed* window. A sliding second can see 54 (`SlidingBoundIsTight` with
  k = 1), and a drop can follow 54 passed messages (`DropAfterFiftyFour`); exactly 27 passed in the last second if and
  only if all earlier proxy traffic of that second was beyond the first 27 of its own window (`ExactlyTwentySeven`).
- The bandwidth limiter's `initial` branch has no effect. The first window starts at clock 0, and the packet that
  refills the budget is never charged.
- A failed first load of the filter is forgotten: later `blockIP` calls return true although nothing is attached.
  Blocking keeps an address out if and only if the first load attached the filter (`BlockedAddressIsKeptOut`).
- If the filter's program is running already, the loader detaches it and returns the opposite of whether cleaning up
  succeeded (`Source/EBPF_Runner.cpp`, lines 20-22), so it can return true with nothing attached. The model keeps the
  two apart.
- A `blockIP` call that returns false can still attach the filter, which then drops truncated frames that passed
  before (`FailedCallCanAttach`; `FailureOnTheWire` says exactly when).
- The detector reports the sender of the packet that closes a window, who need not have probed anything
  (`OtherHostIsReported`). Its "15 ms" window is 16 ms.
- `SockLimiting::remove` erases an address's count and leaves the total: 1000 clients over the process's lifetime,
  then none (`FullStaysFull`).
- `MAX_TIME_MS` is commented as half an hour but compared with microseconds: 1.8 seconds. A client that hangs up
  between messages normally leaves by this path, and is cleaned up twice; the second time its socket is closed, the
  address lookup fails, and whatever text the buffer holds may name another address, whose count is then erased
  (`CleanupTwice`).
- The second clean-up works on a number that may be another client's socket by then (`EarlyReuseUnregisters`,
  `LateCleanupCloses`). Closed that way, the number can be accepted a third time while its handler is still serving;
  two handlers then read from one connection, and one client's bytes reach the server as part of another's message
  (`MixUpReachesServer`).
- A failed address check admits the client, although the header says it should neither accept nor block.
- The address checked, counted and blocked for a client comes from `getsockname`, which names the proxy's own end of
  the connection. The model takes an arbitrary text, so nothing proved depends on whose address it is.
- `continue` after `EWOULDBLOCK` leaves the receive loop, because the loop condition then fails.

## Assumptions

The host is little-endian. Clocks are mathematical integers; traces have nondecreasing time where a lemma says so.
Each XDP invocation and each lock-guarded block is one atomic step; so are accept, recv and send, and two things the
source does not guard: `SockLimiting::add`, and a whole call of `blockIP` or `unblockIP`, though the accept loop and
the detector's thread both make such calls and `isActive` is set before the slow loader has run, so that in the source
a second caller can get past a load that is still under way. accept returns no number that is open already; recv reads
from the connection last accepted under its socket number, whose bytes arrive in the order the client sent them.
`send` delivers all or fails. bpf_obj_get yields a positive descriptor for the pinned map or a negative number, and
the pinned map is the one the attached filter reads. At the start no filter is attached and the list is empty. A Dafny
string stands for the characters before the terminating NUL.

## Model

| member | source | states |
|---|---|---|
| `Frames.DestPortRecovered` | cmake-build-debug/rate_limiting.bpf.c:31-53 | for every frame built from Ethernet, IPv4 (section 3.1 of RFC 791) and TCP (section 3.1 of RFC 9293) headers, the parsed port is the built one if and only if there are no IP options or their bytes 2 and 3 equal the port |
| `Frames.OptionsHideThePort` | cmake-build-debug/bandwidth_limit.bpf.c:44-56 | with four bytes of no-operation options, traffic to port 9090 is not recognised |
| `Frames.ShortFramesHaveNoPort` | cmake-build-debug/rate_limiting.bpf.c:36-49 | any frame under 54 bytes has port 0, so proxy traffic is at least 54 bytes long |
| `Traces.ObserveTells` | cmake-build-debug/bandwidth_limit.bpf.c:32-70 | what the limiters go by: a frame is for the proxy if and only if it holds 54 bytes and bytes 36 and 37 are 0x23 0x82, that is 9090; its whole length counts, and the clock is the kernel's |
| `RateLimiting.RateLimiter.RateLimiting` | cmake-build-debug/rate_limiting.bpf.c:56-86 | one invocation parses the frame and takes the step that the lemmas below characterise, state and verdict |
| `RateLimiting.CounterCountsWindow` | cmake-build-debug/rate_limiting.bpf.c:69-79 | on every trace `messagesCounter` is the number of proxy packets in the current window, capped at 27, where windows are cut from arrival times alone |
| `RateLimiting.DropsBeyondTwentySeven` | cmake-build-debug/rate_limiting.bpf.c:68-77 | a packet is dropped if and only if it is for the proxy and not among the first 27 of its window |
| `RateLimiting.FramesBeyondTwentySeven` | cmake-build-debug/rate_limiting.bpf.c:56-86 | the same told from the bytes of the frames handed to the program |
| `RateLimiting.WindowsCoverPassed` | cmake-build-debug/rate_limiting.bpf.c:69-79 | windows opened since any time t open at least a second apart, and packets passed since t are at most 27 for each of them plus the current window's arrivals, capped at 27 |
| `RateLimiting.SlidingBound` | cmake-build-debug/rate_limiting.bpf.c:68-84 | over any k seconds of any nondecreasing trace at most 27 (k + 1) proxy packets pass |
| `RateLimiting.SlidingBoundIsTight` | cmake-build-debug/rate_limiting.bpf.c:68-84 | for every k >= 1 a trace attains that bound |
| `RateLimiting.DropNeedsTraffic` | cmake-build-debug/rate_limiting.bpf.c:69-77 | a drop needs more than 27 proxy packets, itself included, within the last second |
| `RateLimiting.LightTrafficPasses` | cmake-build-debug/rate_limiting.bpf.c:69-77 | a trace with at most 27 proxy packets in every second ending at an arrival loses nothing |
| `RateLimiting.DropEvidence` | cmake-build-debug/rate_limiting.bpf.c:69-77 | at a drop, the packets passed in the last second are 27 plus those of them that passed before the current window |
| `RateLimiting.ExactlyTwentySeven` | cmake-build-debug/rate_limiting.bpf.c:69-77 | told from the arrivals: at a drop, exactly 27 packets passed in the last second if and only if every proxy packet of that second from before the current window was beyond the first 27 of its own window |
| `RateLimiting.DropAfterFiftyFour` | cmake-build-debug/rate_limiting.bpf.c:69-77 | a trace where 54 passed in the second before a drop |
| `BandwidthLimit.BandwidthLimiter.BandwidthLimit` | cmake-build-debug/bandwidth_limit.bpf.c:62-104 | one invocation parses the frame and takes the step that the lemmas below characterise, all five variables and the verdict |
| `BandwidthLimit.ElapsedTelescopes` | cmake-build-debug/bandwidth_limit.bpf.c:67-88 | `total_time` is always the last proxy packet's time minus the last refill's, across dropped and foreign packets |
| `BandwidthLimit.RefinesMeter` | cmake-build-debug/bandwidth_limit.bpf.c:67-98 | on every trace the verdicts are those of a machine that stores only the last refill time and the budget |
| `BandwidthLimit.BudgetConservation` | cmake-build-debug/bandwidth_limit.bpf.c:84-98 | the missing budget is exactly the bits passed since the last refill, and it is used up exactly when the proxy traffic since then, passed or not, reaches BITS |
| `BandwidthLimit.BudgetBounds` | cmake-build-debug/bandwidth_limit.bpf.c:96-98 | with packets of at most L bytes the budget is a multiple of 8 between 8 - 8L and BITS |
| `BandwidthLimit.MaxBitsFitsItsType` | cmake-build-debug/bandwidth_limit.bpf.c:19-19 | no trace takes MAX_BITS out of the range of a signed 64-bit integer |
| `BandwidthLimit.DropsBeyondBudget` | cmake-build-debug/bandwidth_limit.bpf.c:84-94 | a packet is dropped if and only if it is for the proxy, the last refill is under a second old, and proxy traffic since it has reached BITS |
| `BandwidthLimit.FramesBeyondBudget` | cmake-build-debug/bandwidth_limit.bpf.c:62-104 | the same told from the bytes and the whole lengths of the frames handed to the program |
| `BandwidthLimit.DropNeedsTraffic` | cmake-build-debug/bandwidth_limit.bpf.c:84-94 | a drop needs more than BITS bits of proxy traffic, its own included, within the last second |
| `BandwidthLimit.LightTrafficPasses` | cmake-build-debug/bandwidth_limit.bpf.c:84-94 | a trace with at most BITS bits in every second ending at an arrival loses nothing |
| `BandwidthLimit.SlidingBound` | cmake-build-debug/bandwidth_limit.bpf.c:80-102 | over any k seconds, with packets of at most L bytes, at most (k + 1)(BITS - 8 + 8L) + 8kL bits pass |
| `BandwidthLimit.SlidingBoundIsTight` | cmake-build-debug/bandwidth_limit.bpf.c:80-102 | for every limit L of at least 55 bytes and every k >= 1 a trace attains that bound |
| `DottedText.AtoiIsDecimal` | Source/IPTools.cpp:15-15 | on digit strings reading from the left gives the positional value, each digit counting its character code less 48 |
| `DottedText.AtoiOfText` | Source/IPTools.cpp:15-15 | on any text atoi gives the value of the digits after white space and at most one sign, negated after a minus, and 0 without digits |
| `DottedText.AtoiToString` | Source/IPTools.cpp:37-38 | a printed number reads back as itself |
| `DottedText.TokensAtDot` | Source/IPTools.cpp:10-22 | the tokens of a text with a dot in it are those before it followed by those after it, so extra dots are void |
| `DottedText.StrtokTakesToken` | Source/IPTools.cpp:10-22 | successive strtok calls deliver exactly the non-empty pieces between dots |
| `IPTools.IPv4StringToInt` | Source/IPTools.cpp:8-28 | the loop terminates on every text and returns the big-endian packing of its first four tokens, missing ones zero, or 0 if one of them exceeds 255 |
| `IPTools.PackedIsPositional` | Source/IPTools.cpp:21-21 | as an integer the word is the base-256 positional sum of the first four tokens' numbers, so shift and or neither overflow nor overlap; it is 0 if one of them exceeds 255 |
| `IPTools.OctetOfDecimal` | Source/IPTools.cpp:15-16 | a token of digits within the range of int stands for its decimal value |
| `IPTools.OnlyTheFirstFourTokensMatter` | Source/IPTools.cpp:14-24 | repeated, leading and trailing dots and text after the fourth token change nothing |
| `IPTools.ReverseAssembles` | Source/IPTools.cpp:41-44 | reversing puts the lowest byte highest and so on |
| `IPTools.ReverseIPInvolution` | Source/IPTools.cpp:41-44 | reversing twice is the identity on all words |
| `IPTools.PrintThenParse` | Source/IPTools.cpp:8-44 | parsing the printed form of any word gives its byte-reversal, so the block list's key for it is the word itself |
| `IPTools.PrintInjective` | Source/IPTools.cpp:31-39 | different words print differently |
| `IPTools.ParseThenPrint` | Source/IPTools.cpp:8-44 | a text comes back from parsing, reversing and printing if and only if it is a dotted quad without superfluous zeros |
| `BlockIP.PrintsInWireOrder` | Source/Port_Scanning_Detector.cpp:63-84 | the address bytes b0 b1 b2 b3 on the wire print as the text b0.b1.b2.b3 |
| `IpBlock.FilterIsMembership` | cmake-build-debug/IpBlock.bpf.c:27-81 | while entries match their own keys, exactly the truncated frames and the IPv4 frames with a listed source are dropped |
| `IpBlock.FilterOnBytes` | cmake-build-debug/IpBlock.bpf.c:27-81 | the same told from the bytes: a frame is dropped if and only if it is under 14 bytes, or is 08 00 at bytes 12 and 13 and is under 34 bytes or has its bytes 26 to 29 on the list |
| `IpBlock.SourceRecovered` | cmake-build-debug/IpBlock.bpf.c:48-63 | the source the filter reads from a built frame is the one put in |
| `BlockIP.Blocker.BlockIP` | Source/BlockIP.cpp:19-53 | the call takes the step that the lemmas below characterise, on both static variables, the map, the attached filter and the result |
| `BlockIP.Blocker.UnblockIP` | Source/BlockIP.cpp:57-75 | likewise for removing an address |
| `BlockIP.ListIsBlockedSet` | Source/BlockIP.cpp:40-74 | after any calls the map holds exactly the addresses whose last successful call was a block, each under its own key with a full mask, at most 1024 |
| `BlockIP.VerdictAfter` | cmake-build-debug/IpBlock.bpf.c:63-80 | after any calls the filter drops a frame exactly if it is truncated or its source is in that set, and on the wire it is dropped exactly if the first load attached the filter as well |
| `BlockIP.FailureOnTheWire` | Source/BlockIP.cpp:23-48 | a call that returns false changes a frame's fate if and only if it is the first block call, its load leaves the filter attached, and the frame is truncated; the filter's own verdicts it never changes |
| `BlockIP.FailedCallCanAttach` | Source/BlockIP.cpp:34-48 | a first call that loads the filter, returns false, and has an empty frame dropped that passed before |
| `BlockIP.BlockSucceedsWhen` | Source/BlockIP.cpp:23-48 | blocking returns true if and only if the loader has been got past, now or by an earlier block call, a map is at hand, the kernel plays along, and by the past calls the address is blocked or fewer than 1024 are |
| `BlockIP.UnblockSucceedsWhen` | Source/BlockIP.cpp:61-70 | unblocking returns true if and only if by the past calls the address is blocked, the last block call to ask for the map got it, and the kernel plays along |
| `BlockIP.ActiveAfterFirstBlock` | Source/BlockIP.cpp:23-38 | the loader runs in the first block call only, and whether that run left the filter attached decides for good |
| `BlockIP.BlockedAddressIsKeptOut` | Source/BlockIP.cpp:19-53 | after a true result for a printed address, and until a call succeeds in unblocking it, every IPv4 frame from it is dropped on the wire if and only if the first load attached the filter |
| `BlockIP.FailedLoadIsForgotten` | Source/BlockIP.cpp:23-38 | two calls where the second returns true and no filter is attached |
| `PortScan.Detector.OnPacketArrives` | Source/Port_Scanning_Detector.cpp:53-98 | one callback takes the step that the lemmas below characterise, and blocks the packet's source exactly when it reports one, leaving the block list alone otherwise |
| `PortScan.CounterCountsSegment` | Source/Port_Scanning_Detector.cpp:66-97 | on every trace `countPort` is the number of monitored packets since the last cut, where cuts are told from times alone |
| `PortScan.ScanAtFullSegments` | Source/Port_Scanning_Detector.cpp:79-86 | a scan is reported at a packet if and only if it comes at least 16 ms after the last cut and at least 100 monitored packets lie since, itself included; its source is reported |
| `PortScan.EveryPacketCountedOnce` | Source/Port_Scanning_Detector.cpp:69-97 | counts at cuts plus the open count make up all monitored packets, so 100 times the reports is at most their number |
| `PortScan.ScansAreSpaced` | Source/Port_Scanning_Detector.cpp:76-96 | reports are at least 16 ms apart |
| `PortScan.ReportMeansBurst` | Source/Port_Scanning_Detector.cpp:79-86 | a report means at least 99 earlier monitored packets within 16 ms of the cut |
| `PortScan.BurstIsReported` | Source/Port_Scanning_Detector.cpp:66-97 | 199 monitored packets within less than 16 ms are always reported, at the latest by the first TCP packet 16 ms after them |
| `PortScan.SplitBurstIsNotReported` | Source/Port_Scanning_Detector.cpp:66-97 | 198 within two nanoseconds may go unreported |
| `PortScan.OtherHostIsReported` | Source/Port_Scanning_Detector.cpp:63-84 | the reported host may have sent no monitored packet |
| `PortScan.ListFollowsCalls` | Source/Port_Scanning_Detector.cpp:53-98 | callback by callback, with any other calls on the block list in between, the list is what the reports and those calls made of it in order, and the detector what its own packets made of it |
| `PortScan.ReportedIsKeptOut` | Source/Port_Scanning_Detector.cpp:79-86 | on any trace, with any other calls on the block list in between, whoever was reported with the block call returning true has all later IPv4 frames dropped until some call succeeds in unblocking it, if and only if the first load attached the filter, whoever made that call |
| `PortScan.BurstIsKeptOut` | Source/Port_Scanning_Detector.cpp:53-98 | with any other calls on the block list in between, 199 monitored packets within less than 16 ms and a TCP packet 16 ms later make some packet up to that one be reported, and its source is then kept out as above |
| `SockLimiting.SockLimiter.Add` | Source/SockLimiting.cpp:6-20 | the call takes the step that the lemmas below characterise, and never dereferences the end of the map |
| `SockLimiting.SockLimiter.Remove` | Source/SockLimiting.cpp:27-29 | removal forgets the address and leaves the total |
| `SockLimiting.StateCountsAdds` | Source/SockLimiting.cpp:10-18 | after any calls the total is the number of successful adds ever, at most 1000, and an address's count is its successful adds since it was last removed, at most 3 |
| `SockLimiting.AddSucceedsWhen` | Source/SockLimiting.cpp:8-10 | an add succeeds if and only if fewer than 1000 ever did and fewer than 3 of its address since its last removal |
| `SockLimiting.TotalIsConserved` | Source/SockLimiting.cpp:12-28 | the total is the sum of current counts plus all counts that removals erased |
| `SockLimiting.FullStaysFull` | Source/SockLimiting.cpp:22-29 | after 1000 successful adds no sequence of calls admits another |
| `Relay.ReceiveStringFromSocket` | Source/ReverseProxy.cpp:169-210 | on any script every turn uses one recv result, all results but the last are full buffers, the message is all their data, and the time-out is thrown exactly at an end of stream 1.8 s after the last data |
| `Relay.TimeLimitIsEighteenTenths` | Source/ReverseProxy.cpp:182-185 | the limit is 1.8 seconds, counted from the epoch before any data of the message |
| `Relay.RunIsFaithful` | Source/ReverseProxy.cpp:130-218 | at every moment of every run the sent messages and the one in hand are exactly the bytes received, no message is empty, and the time limit discards whole buffers only |
| `Relay.SentIsPrefixOfReceived` | Source/ReverseProxy.cpp:130-218 | what a client's handler sent is a prefix of what recv delivered to it, all of it if the client left, short of one message if send failed |
| `Relay.HandlerFromHistory` | Source/ReverseProxy.cpp:130-210 | on every history the place of a handler, the reason for its end, the message in hand and the messages sent are told from what recv and send reported; once ended it cleans up once, after a time-out twice, and never again |
| `ReverseProxy.ReverseProxy.Accept` | Source/ReverseProxy.cpp:95-109 | one uninterrupted turn of the accept loop up to admission, with the block list and the counts |
| `ReverseProxy.ReverseProxy.Insert` | Source/ReverseProxy.cpp:111-114 | registering a client keeps an existing entry and raises the number regardless |
| `ReverseProxy.ReverseProxy.Cleanup` | Source/ReverseProxy.cpp:149-155 | one locked clean-up block |
| `ReverseProxy.ReverseProxy.HandleNewClient` | Source/ReverseProxy.cpp:130-167 | a handler run uninterrupted takes results of recv and send each in its turn, goes on until its end or until the next result is missing, puts its messages on the server stream in order, and cleans up once at its end, or twice after a time-out |
| `ReverseProxy.AdmissionHolds` | Source/ReverseProxy.cpp:104-194 | under every interleaving ids are distinct and below `m_numOfClient`, the number of clients is at most it, it is at most `_count`, that at most 1000, and the last two agree except between an add and its insertion |
| `ReverseProxy.LimiterFollows` | Source/ReverseProxy.cpp:104-189 | under every interleaving the shared counts are those of the threads' add and remove calls one after the other, so the `SockLimiting` results apply |
| `ReverseProxy.AdmittedWhen` | Source/ReverseProxy.cpp:101-108 | in every reachable state a client is admitted if and only if the check does not answer malicious, fewer than 1000 clients ever were, and by the past moves fewer than 3 of its address were counted since that was last cleaned up; only a refusal for want of room closes its socket; otherwise the accept loop goes back to waiting |
| `ReverseProxy.EveryClientAccountedFor` | Source/ReverseProxy.cpp:92-119 | under every interleaving the connections accepted are the handlers started, the refusals, and the one in the accept loop's hands, if any |
| `ReverseProxy.HandlersInTurn` | Source/ReverseProxy.cpp:130-210 | under every interleaving each handler's whole life is told by its own history, as above |
| `ReverseProxy.HandlersCanGoOn` | Source/ReverseProxy.cpp:130-210 | in every reachable state a handler can take any result of recv exactly while it is listening, of send exactly with a complete message, and can clean up exactly as often as is still due |
| `ReverseProxy.EntriesOnlyCleanedUp` | Source/ReverseProxy.cpp:113-191 | over any further moves a client keeps its entry if and only if no handler of its socket cleans up meanwhile, its own or another |
| `ReverseProxy.CleanupTwice` | Source/ReverseProxy.cpp:160-194 | an immediate second clean-up, whose lookup may give another text, changes nothing if and only if it gives the same text or one with no count, and otherwise erases that count |
| `ReverseProxy.StreamHolds` | Source/ReverseProxy.cpp:212-218 | under every interleaving each thread's share of the server stream is exactly the messages it sent, in order, and every entry is some thread's |
| `ReverseProxy.ServerSeesPrefix` | Source/ReverseProxy.cpp:130-218 | under every interleaving a handler's share of the stream is a prefix of the bytes recv delivered to it, short only by the message in hand |
| `ReverseProxy.RegisteredUnlessHarmed` | Source/ReverseProxy.cpp:104-194 | all along a run every client being served is registered under its own id with an open socket, if and only if no clean-up hits a socket on which another client is being served and no client is inserted whose socket was closed meanwhile; every registered socket is then open |
| `ReverseProxy.EarlyReuseUnregisters` | Source/ReverseProxy.cpp:149-194 | a run where a socket accepted again between the two clean-ups of a time-out leaves a served client unregistered on a closed socket |
| `ReverseProxy.LateCleanupCloses` | Source/ReverseProxy.cpp:95-194 | a run where the second clean-up comes during the next client's address check, so that the client is counted, registered and served on a socket already closed |
| `Connections.OwnSocketsUnlessReused` | Source/ReverseProxy.cpp:95-191 | all along a run every served handler's socket number denotes the connection it was started for, if and only if no socket is accepted while another client is being served on it |
| `Connections.UnharmedIsNotReused` | Source/ReverseProxy.cpp:95-191 | a run without harmful clean-ups and insertions has no such acceptance |
| `Connections.UnmixedUnlessMisread` | Source/ReverseProxy.cpp:169-181 | all along a run every handler has had exactly the bytes read from its own client's connection, if and only if no handler ever gets data on a number that denotes another connection |
| `Connections.ServerSeesItsClient` | Source/ReverseProxy.cpp:130-218 | while no socket is accepted on which another client is being served, a handler's share of the stream is a prefix of the bytes read from its own client's connection, by whichever handler, short only by the message in hand |
| `Connections.TwoServedOnOneSocket` | Source/ReverseProxy.cpp:95-191 | a run after which two clients are being served on one socket number, which denotes the later one's connection |
| `Connections.MixUpReachesServer` | Source/ReverseProxy.cpp:130-218 | a run in which a byte that one client sent reaches the server as another client's message, while nothing was read from that other client's connection |

## Left out

- The packet pointers (`data`, `eth`, `ip`, `tcp`) that the XDP programs keep as globals: rewritten before every use.
- The trace lemmas take each frame as (for the proxy or not, length, time); `Traces.Observe` makes that of a frame.
- `EBPF_Runner`, bpftool and the shell: what the loader returns, and whether the filter is attached then.
- `checkIP`: an arbitrary answer per address.
- Descriptors other than client sockets, which a second clean-up might close too.
- Socket set-up, address lookup and its 11-byte buffer: an arbitrary text for each lookup.
- Packet capture and parsing, and the port list's asynchronous loading: parsed packets and a fixed set of ports.
- Races on the BPF globals between processors, partial sends, and wrap-around of clocks and of `countPort`.
- `atoi` beyond the range of `int`, undefined in C: the model wraps, and `OctetOfDecimal` claims nothing there.
- In `HandleNewClient` the first clean-up of a time-out is made by the caller of the receive loop rather than inside
  it; the order of effects is the same.
- Console output, the Python scripts, the build files, `isNumeric`, and the unreachable end of `handleNewClient`.
