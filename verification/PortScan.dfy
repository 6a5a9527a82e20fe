/** The port-scan detector: counts packets to monitored ports and decides at the end of each window
    (Source/Port_Scanning_Detector.cpp). */
module PortScan {
  import Frames
  import IPTools
  import opened IpBlock
  import BlockIP
  import opened Sequences

  const PORT: int := 100     // packets
  const PER_MS: int := 15    // milliseconds

  /** A captured packet, parsed: steady clock in nanoseconds, whether it has TCP and IPv4 layers, source address
      as it lies in memory, destination port. */
  datatype Seen = Seen(now: nat, tcpIp: bool, source: bv32, destPort: nat)

  datatype State = State(countPort: int, lastPacketTime: int)

  const START := State(0, 0)

  datatype Decision = Quiet | Scan(source: bv32)

  /** duration_cast to milliseconds truncates toward zero. */
  function Milliseconds(nanoseconds: int): int {
    if nanoseconds >= 0 then nanoseconds / 1_000_000 else -(-nanoseconds / 1_000_000)
  }

  /** Fifteen milliseconds are over once sixteen have been reached, to the nanosecond. */
  lemma WindowIsSixteenMilliseconds(nanoseconds: int)
    ensures Milliseconds(nanoseconds) > PER_MS <==> nanoseconds >= 16_000_000
  {
  }

  predicate Monitored(ports: set<nat>, p: Seen) {
    p.tcpIp && p.destPort in ports
  }

  /** One callback, on values. */
  function Step(ports: set<nat>, s: State, p: Seen): (State, Decision) {
    if !p.tcpIp then (s, Quiet)
    else
      var count := if p.destPort in ports then s.countPort + 1 else s.countPort;
      if Milliseconds(p.now - s.lastPacketTime) > PER_MS then
        (State(0, p.now), if count >= PORT then Scan(p.source) else Quiet)
      else (State(count, s.lastPacketTime), Quiet)
  }

  class Detector {
    const ports: set<nat>
    const blocker: BlockIP.Blocker
    var countPort: int
    var lastPacketTime: int

    ghost function View(): State
      reads this
    {
      State(countPort, lastPacketTime)
    }

    constructor (ports: set<nat>, blocker: BlockIP.Blocker)
      ensures this.ports == ports && this.blocker == blocker && View() == START
    {
      this.ports, this.blocker := ports, blocker;
      countPort, lastPacketTime := 0, 0;
    }

    method OnPacketArrives(packet: Seen, answers: BlockIP.Answers) returns (decision: Decision)
      modifies this, blocker
      ensures (View(), decision) == Step(ports, old(View()), packet)
      ensures blocker.View()
           == if decision.Scan? then
                BlockIP.Step(old(blocker.View()), BlockIP.Block(Address(packet.source), answers)).0
              else old(blocker.View())
      ensures Watch(View(), blocker.View())
           == AfterEvent(ports, Watch(old(View()), old(blocker.View())), Captured(packet, answers))
    {
      IPTools.PrintThenParse(packet.source);
      decision := Quiet;
      if !packet.tcpIp {
        return;
      }
      if packet.destPort in ports {
        countPort := countPort + 1;
      }
      var timeDifference := Milliseconds(packet.now - lastPacketTime);
      if timeDifference > PER_MS {
        if countPort >= PORT {
          decision := Scan(packet.source);
          var done := blocker.BlockIP(IPTools.IntToIPv4String(packet.source), answers);
        }
        countPort := 0;
        lastPacketTime := packet.now;
      }
    }
  }

  /** What happens around the block list: a packet reaches the detector, or someone else calls the list, as the accept
      loop does. */
  datatype Event = Captured(packet: Seen, answers: BlockIP.Answers) | Elsewhere(op: BlockIP.Op)

  /** The detector and the block list together. */
  datatype Watch = Watch(detector: State, list: BlockIP.State)

  /** A reported packet's source is blocked: printed and parsed it is the source again. */
  function AfterEvent(ports: set<nat>, w: Watch, event: Event): Watch {
    match event
    case Captured(packet, answers) =>
      var (detector, decision) := Step(ports, w.detector, packet);
      Watch(detector, if decision.Scan? then BlockIP.Step(w.list, BlockIP.Block(Address(packet.source), answers)).0
                      else w.list)
    case Elsewhere(op) => w.(list := BlockIP.Step(w.list, op).0)
  }

  ghost function Watched(ports: set<nat>, events: seq<Event>): Watch {
    if events == [] then Watch(START, BlockIP.START) else AfterEvent(ports, Watched(ports, Init(events)), Last(events))
  }

  ghost predicate Nondecreasing(trace: seq<Seen>) {
    forall i, j :: 0 <= i <= j < |trace| ==> trace[i].now <= trace[j].now
  }

  ghost function Run(ports: set<nat>, trace: seq<Seen>): State {
    if trace == [] then START else Step(ports, Run(ports, Init(trace)), Last(trace)).0
  }

  ghost function DecisionAt(ports: set<nat>, trace: seq<Seen>, i: nat): Decision
    requires i < |trace|
  {
    Step(ports, Run(ports, trace[..i]), trace[i]).1
  }

  // ------------------------------------------------------------------------------------------
  // The reference: the trace cut into segments by time alone
  // ------------------------------------------------------------------------------------------

  /** The time of the last cut: the first TCP packet 16 ms or more after the cut before. */
  ghost function CutTime(trace: seq<Seen>): nat {
    if trace == [] then 0
    else if Last(trace).tcpIp && Last(trace).now - CutTime(Init(trace)) >= 16_000_000 then Last(trace).now
    else CutTime(Init(trace))
  }

  ghost predicate LastCuts(trace: seq<Seen>)
    requires trace != []
  {
    Last(trace).tcpIp && Last(trace).now - CutTime(Init(trace)) >= 16_000_000
  }

  /** The index after the packet that made the last cut. */
  ghost function SegmentStart(trace: seq<Seen>): (start: nat)
    ensures start <= |trace|
  {
    if trace == [] then 0 else if LastCuts(trace) then |trace| else SegmentStart(Init(trace))
  }

  /** Monitored packets from index `lo` on. */
  ghost function Count(ports: set<nat>, trace: seq<Seen>, lo: nat): nat {
    if |trace| <= lo then 0
    else Count(ports, Init(trace), lo) + (if Monitored(ports, Last(trace)) then 1 else 0)
  }

  /** The counter holds the monitored packets of the open segment. */
  lemma {:induction false} CounterCountsSegment(ports: set<nat>, trace: seq<Seen>)
    ensures Run(ports, trace) == State(Count(ports, trace, SegmentStart(trace)), CutTime(trace))
  {
    if trace != [] {
      CounterCountsSegment(ports, Init(trace));
      WindowIsSixteenMilliseconds(Last(trace).now - CutTime(Init(trace)));
    }
  }

  /** Exact behaviour: a scan is reported at a packet exactly when the packet makes a cut and the segment it ends,
      the packet included, holds at least 100 monitored packets. The reported address is that packet's source. */
  lemma ScanAtFullSegments(ports: set<nat>, trace: seq<Seen>, i: nat)
    requires i < |trace|
    ensures DecisionAt(ports, trace, i).Scan?
       <==> LastCuts(trace[..i + 1]) && Count(ports, trace[..i + 1], SegmentStart(trace[..i])) >= PORT
    ensures DecisionAt(ports, trace, i).Scan? ==> DecisionAt(ports, trace, i).source == trace[i].source
  {
    var t := trace[..i + 1];
    assert Init(t) == trace[..i] && Last(t) == trace[i];
    CounterCountsSegment(ports, trace[..i]);
    WindowIsSixteenMilliseconds(trace[i].now - CutTime(trace[..i]));
  }

  // ------------------------------------------------------------------------------------------
  // Conservation and spacing
  // ------------------------------------------------------------------------------------------

  /** The sum of the counts thrown away at cuts. */
  ghost function CountedAtCuts(ports: set<nat>, trace: seq<Seen>): nat {
    if trace == [] then 0
    else CountedAtCuts(ports, Init(trace))
         + (if LastCuts(trace) then Count(ports, trace, SegmentStart(Init(trace))) else 0)
  }

  ghost function Scans(ports: set<nat>, trace: seq<Seen>): nat {
    if trace == [] then 0
    else Scans(ports, Init(trace)) + (if Step(ports, Run(ports, Init(trace)), Last(trace)).1.Scan? then 1 else 0)
  }

  /** Every monitored packet is counted in exactly one segment, and each report uses up at least 100 of them. */
  lemma {:induction false} EveryPacketCountedOnce(ports: set<nat>, trace: seq<Seen>)
    ensures CountedAtCuts(ports, trace) + Run(ports, trace).countPort == Count(ports, trace, 0)
    ensures PORT * Scans(ports, trace) <= CountedAtCuts(ports, trace)
  {
    if trace != [] {
      EveryPacketCountedOnce(ports, Init(trace));
      CounterCountsSegment(ports, trace);
      CounterCountsSegment(ports, Init(trace));
      WindowIsSixteenMilliseconds(Last(trace).now - CutTime(Init(trace)));
    }
  }

  lemma {:induction false} CutsStay(trace: seq<Seen>, n: nat)
    requires Nondecreasing(trace) && n <= |trace|
    ensures CutTime(trace[..n]) <= CutTime(trace)
    ensures trace != [] ==> CutTime(trace) <= Last(trace).now
    decreases |trace|
  {
    if n == |trace| {
      assert trace[..n] == trace;
      if trace != [] {
        CutsStay(Init(trace), n - 1);
      }
    } else {
      CutsStay(Init(trace), n);
      assert Init(trace)[..n] == trace[..n];
    }
  }

  /** Reports are at least 16 ms apart. */
  lemma ScansAreSpaced(ports: set<nat>, trace: seq<Seen>, i: nat, j: nat)
    requires Nondecreasing(trace) && i < j < |trace|
    requires DecisionAt(ports, trace, i).Scan? && DecisionAt(ports, trace, j).Scan?
    ensures trace[j].now - trace[i].now >= 16_000_000
  {
    ScanAtFullSegments(ports, trace, i);
    ScanAtFullSegments(ports, trace, j);
    CutsAreSpaced(trace, i, j);
  }

  lemma CutsAreSpaced(trace: seq<Seen>, i: nat, j: nat)
    requires Nondecreasing(trace) && i < j < |trace|
    requires LastCuts(trace[..i + 1]) && LastCuts(trace[..j + 1])
    ensures trace[j].now - trace[i].now >= 16_000_000
  {
    assert Init(trace[..j + 1]) == trace[..j] && trace[..j][..i + 1] == trace[..i + 1];
    CutsStay(trace[..j], i + 1);
  }

  // ------------------------------------------------------------------------------------------
  // What a report means, and what is sure to be reported
  // ------------------------------------------------------------------------------------------

  /** All packets of an open segment lie within 16 ms of its cut. */
  lemma {:induction false} SegmentIsShort(trace: seq<Seen>)
    requires Nondecreasing(trace)
    ensures forall i :: SegmentStart(trace) <= i < |trace| && trace[i].tcpIp ==>
              CutTime(trace) <= trace[i].now < CutTime(trace) + 16_000_000
    ensures trace != [] ==> CutTime(trace) <= Last(trace).now
  {
    if trace != [] {
      SegmentIsShort(Init(trace));
    }
  }

  lemma {:induction false} CountGrows(ports: set<nat>, trace: seq<Seen>, lo: nat, hi: nat)
    requires lo <= hi <= |trace|
    ensures Count(ports, trace, lo) == Count(ports, trace[..hi], lo) + Count(ports, trace, hi)
  {
    if hi == |trace| {
      assert trace[..hi] == trace;
    } else {
      CountGrows(ports, Init(trace), lo, hi);
      assert Init(trace)[..hi] == trace[..hi];
    }
  }

  /** Soundness: a report means at least 99 monitored packets, besides the reporting one, within 16 ms of the cut. */
  lemma ReportMeansBurst(ports: set<nat>, trace: seq<Seen>, i: nat)
    requires Nondecreasing(trace) && i < |trace| && DecisionAt(ports, trace, i).Scan?
    ensures var start, cut := SegmentStart(trace[..i]), CutTime(trace[..i]);
            && start <= i && Count(ports, trace[..i], start) >= PORT - 1
            && forall j :: start <= j < i && Monitored(ports, trace[j]) ==> cut <= trace[j].now < cut + 16_000_000
  {
    ScanAtFullSegments(ports, trace, i);
    var t := trace[..i + 1];
    assert Init(t) == trace[..i] && Last(t) == trace[i];
    SegmentIsShort(trace[..i]);
  }

  /** A segment that already holds 100 monitored packets is reported when it is cut. */
  lemma {:induction false} FullSegmentIsReported(ports: set<nat>, trace: seq<Seen>, n: nat, c: nat) returns (i: nat)
    requires n <= c < |trace|
    requires Count(ports, trace[..n], SegmentStart(trace[..n])) >= PORT
    requires trace[c].tcpIp && trace[c].now >= CutTime(trace[..n]) + 16_000_000
    ensures n <= i <= c && DecisionAt(ports, trace, i).Scan?
    decreases c - n
  {
    var t := trace[..n + 1];
    assert Init(t) == trace[..n] && Last(t) == trace[n];
    if LastCuts(t) {
      i := n;
      ScanAtFullSegments(ports, trace, n);
    } else {
      i := FullSegmentIsReported(ports, trace, n + 1, c);
    }
  }

  lemma {:induction false} SegmentStartIsCut(trace: seq<Seen>, n: nat)
    requires n <= |trace|
    ensures var s := SegmentStart(trace[..n]);
            s > 0 ==> s <= n && LastCuts(trace[..s]) && CutTime(trace[..n]) == trace[s - 1].now
  {
    if n > 0 {
      var t := trace[..n];
      assert Init(t) == trace[..n - 1] && Last(t) == trace[n - 1];
      SegmentStartIsCut(trace, n - 1);
    }
  }

  lemma {:induction false} CountMonotone(ports: set<nat>, trace: seq<Seen>, lo: nat, hi: nat)
    requires lo <= hi
    ensures Count(ports, trace, hi) <= Count(ports, trace, lo)
  {
    if |trace| > lo {
      CountMonotone(ports, Init(trace), lo, hi);
    }
  }

  /** Completeness: 199 monitored packets within less than 16 ms are reported, at the latest by the first TCP packet
      16 ms after the last of them. */
  lemma BurstIsReported(ports: set<nat>, trace: seq<Seen>, a: nat, b: nat, c: nat) returns (i: nat)
    requires Nondecreasing(trace) && a <= b < c < |trace|
    requires trace[b].now - trace[a].now < 16_000_000
    requires Count(ports, trace[..b + 1], a) >= 2 * PORT - 1
    requires trace[c].tcpIp && trace[c].now >= trace[b].now + 16_000_000
    ensures a <= i <= c && DecisionAt(ports, trace, i).Scan?
  {
    var t := trace[..b + 1];
    var s := SegmentStart(t);
    SegmentStartIsCut(trace, b + 1);
    CutsStay(t, b + 1);
    assert Last(t) == trace[b];
    if s <= a {
      CountMonotone(ports, t, s, a);
      i := FullSegmentIsReported(ports, trace, b + 1, c);
    } else {
      CountGrows(ports, t, a, s);
      assert t[..s] == trace[..s];
      if Count(ports, t, s) >= PORT {
        i := FullSegmentIsReported(ports, trace, b + 1, c);
      } else {
        i := s - 1;
        FirstHalfIsReported(ports, trace, a, s);
      }
    }
  }

  lemma FirstHalfIsReported(ports: set<nat>, trace: seq<Seen>, a: nat, s: nat)
    requires Nondecreasing(trace) && a < s <= |trace| && LastCuts(trace[..s])
    requires trace[s - 1].now - trace[a].now < 16_000_000
    requires Count(ports, trace[..s], a) >= PORT
    ensures DecisionAt(ports, trace, s - 1).Scan?
  {
    var r := SegmentStart(trace[..s - 1]);
    NoCutBefore(trace, a, s);
    CountMonotone(ports, trace[..s], r, a);
    ScanAtFullSegments(ports, trace, s - 1);
  }

  lemma NoCutBefore(trace: seq<Seen>, a: nat, s: nat)
    requires Nondecreasing(trace) && a < s <= |trace| && LastCuts(trace[..s])
    requires trace[s - 1].now - trace[a].now < 16_000_000
    ensures SegmentStart(trace[..s - 1]) <= a
  {
    var r := SegmentStart(trace[..s - 1]);
    SegmentStartIsCut(trace, s - 1);
    if r > a {
      CutsAreSpaced(trace, r - 1, s - 1);
      assert false;
    }
  }

  // ------------------------------------------------------------------------------------------
  // Both sides of the threshold, and who is reported
  // ------------------------------------------------------------------------------------------

  /** Monitored packets that make no cut only raise the counter. */
  lemma {:induction false} CopiesCount(ports: set<nat>, trace: seq<Seen>, p: Seen, n: nat)
    requires Monitored(ports, p) && p.now < Run(ports, trace).lastPacketTime + 16_000_000
    ensures var s := Run(ports, trace);
            Run(ports, trace + Copies(p, n)) == State(s.countPort + n, s.lastPacketTime)
    ensures Scans(ports, trace + Copies(p, n)) == Scans(ports, trace)
    ensures Count(ports, trace + Copies(p, n), 0) == Count(ports, trace, 0) + n
  {
    if n == 0 {
      assert trace + Copies(p, 0) == trace;
    } else {
      CopiesCount(ports, trace, p, n - 1);
      CopiesGrow(trace, p, n);
      WindowIsSixteenMilliseconds(p.now - Run(ports, trace).lastPacketTime);
    }
  }

  lemma Next(ports: set<nat>, trace: seq<Seen>, p: Seen)
    ensures Run(ports, trace + [p]) == Step(ports, Run(ports, trace), p).0
    ensures Scans(ports, trace + [p])
         == Scans(ports, trace) + (if Step(ports, Run(ports, trace), p).1.Scan? then 1 else 0)
    ensures Count(ports, trace + [p], 0) == Count(ports, trace, 0) + (if Monitored(ports, p) then 1 else 0)
  {
    assert Init(trace + [p]) == trace && Last(trace + [p]) == p;
  }

  /** 98 monitored packets, a 99th that makes a cut, 99 more, and 16 ms later a packet to no monitored port. */
  ghost function SplitBurst(source: bv32): seq<Seen> {
    Copies(Seen(15_999_999, true, source, 1), 98) + [Seen(16_000_000, true, source, 1)]
    + Copies(Seen(16_000_001, true, source, 1), 99) + [Seen(32_000_001, true, source, 2)]
  }

  /** 199 is needed: 198 monitored packets within two nanoseconds can go unreported. */
  lemma SplitBurstIsNotReported(source: bv32)
    ensures Nondecreasing(SplitBurst(source))
    ensures Count({1}, SplitBurst(source), 0) == 2 * PORT - 2 && Scans({1}, SplitBurst(source)) == 0
  {
    var first := Copies(Seen(15_999_999, true, source, 1), 98) + [Seen(16_000_000, true, source, 1)];
    AfterFirstCut(source);
    CopiesCount({1}, first, Seen(16_000_001, true, source, 1), 99);
    Next({1}, first + Copies(Seen(16_000_001, true, source, 1), 99), Seen(32_000_001, true, source, 2));
  }

  lemma AfterFirstCut(source: bv32)
    ensures var first := Copies(Seen(15_999_999, true, source, 1), 98) + [Seen(16_000_000, true, source, 1)];
            && Run({1}, first) == State(0, 16_000_000)
            && Scans({1}, first) == 0 && Count({1}, first, 0) == 99
  {
    var probes := Copies(Seen(15_999_999, true, source, 1), 98);
    assert [] + probes == probes;
    CopiesCount({1}, [], Seen(15_999_999, true, source, 1), 98);
    Next({1}, probes, Seen(16_000_000, true, source, 1));
  }

  /** A hundred probes from one host, then one packet to an ordinary port from another. */
  ghost function OtherHost(scanner: bv32, other: bv32): seq<Seen> {
    Copies(Seen(0, true, scanner, 1), 100) + [Seen(16_000_000, true, other, 2)]
  }

  /** The reported host is whoever sends the packet that makes the cut, which need not have probed anything. */
  lemma OtherHostIsReported(scanner: bv32, other: bv32)
    requires scanner != other
    ensures var trace := OtherHost(scanner, other);
            && DecisionAt({1}, trace, 100) == Scan(other)
            && forall i :: 0 <= i < |trace| && trace[i].source == other ==> !Monitored({1}, trace[i])
  {
    var probes := Copies(Seen(0, true, scanner, 1), 100);
    assert [] + probes == probes;
    CopiesCount({1}, [], Seen(0, true, scanner, 1), 100);
    assert OtherHost(scanner, other)[..100] == probes;
    WindowIsSixteenMilliseconds(16_000_000);
  }

  // ------------------------------------------------------------------------------------------
  // From the detector to the wire
  // ------------------------------------------------------------------------------------------

  /** The detector's share of the events. */
  ghost function Trace(events: seq<Event>): seq<Seen> {
    if events == [] then []
    else Trace(Init(events)) + (if Last(events).Captured? then [Last(events).packet] else [])
  }

  /** What the detector decides at the last event. */
  ghost function LastDecision(ports: set<nat>, events: seq<Event>): Decision
    requires events != []
  {
    if Last(events).Captured? then Step(ports, Run(ports, Trace(Init(events))), Last(events).packet).1 else Quiet
  }

  /** The calls on the block list, the detector's and the others', in order. */
  ghost function Calls(ports: set<nat>, events: seq<Event>): seq<BlockIP.Op> {
    if events == [] then []
    else
      var before := Calls(ports, Init(events));
      match Last(events)
      case Elsewhere(op) => before + [op]
      case Captured(_, answers) =>
        var decision := LastDecision(ports, events);
        if decision.Scan? then before + [BlockIP.Block(Address(decision.source), answers)] else before
  }

  /** Whatever else calls the block list, the list is what the calls made of it, and the detector what its own packets
      made of it. */
  lemma {:induction false} ListFollowsCalls(ports: set<nat>, events: seq<Event>)
    ensures Watched(ports, events) == Watch(Run(ports, Trace(events)), BlockIP.Run(Calls(ports, events)))
  {
    if events != [] {
      var before := Calls(ports, Init(events));
      ListFollowsCalls(ports, Init(events));
      StepReportsSource(ports, Run(ports, Trace(Init(events))), Last(events));
      match Last(events) {
        case Elsewhere(op) =>
          BlockIP.RunNext(before, op);
          assert Trace(events) == Trace(Init(events));
        case Captured(packet, answers) =>
          BlockIP.RunNext(before, BlockIP.Block(Address(packet.source), answers));
          assert Init(Trace(events)) == Trace(Init(events));
      }
    }
  }

  lemma StepReportsSource(ports: set<nat>, s: State, event: Event)
    ensures event.Captured? && Step(ports, s, event.packet).1.Scan? ==>
              Step(ports, s, event.packet).1.source == event.packet.source
  {
  }

  /** A report among other events is a report on the detector's own trace, so everything said of traces applies. */
  lemma DecisionOnTrace(ports: set<nat>, events: seq<Event>)
    requires events != [] && Last(events).Captured?
    ensures var trace := Trace(events);
            && trace != [] && Last(trace) == Last(events).packet
            && LastDecision(ports, events) == DecisionAt(ports, trace, |trace| - 1)
  {
    var trace := Trace(events);
    assert Init(trace) == Trace(Init(events));
  }

  lemma {:induction false} CallsExtend(ports: set<nat>, events: seq<Event>, n: nat) returns (later: seq<BlockIP.Op>)
    requires n <= |events|
    ensures Calls(ports, events) == Calls(ports, events[..n]) + later
  {
    if n == |events| {
      assert events[..n] == events;
      later := [];
    } else {
      var rest := CallsExtend(ports, Init(events), n);
      assert Init(events)[..n] == events[..n];
      var added := if Calls(ports, events) == Calls(ports, Init(events)) then [] else [Last(Calls(ports, events))];
      later := rest + added;
    }
  }

  /** The calls made by the events after the first n. */
  ghost function CallsAfter(ports: set<nat>, events: seq<Event>, n: nat): seq<BlockIP.Op>
    requires n <= |events|
  {
    var all, before := Calls(ports, events), Calls(ports, events[..n]);
    if |before| <= |all| then all[|before|..] else []
  }

  /** The block call about the source of the n-th event's packet returns true. */
  ghost predicate CallReturnsTrue(ports: set<nat>, events: seq<Event>, n: nat)
    requires 0 < n <= |events| && events[n - 1].Captured?
  {
    BlockIP.Step(BlockIP.Run(Calls(ports, events[..n - 1])),
                 BlockIP.Block(Address(events[n - 1].packet.source), events[n - 1].answers)).1
  }

  /** No call after the n-th event succeeds in unblocking that source. */
  ghost predicate StaysListed(ports: set<nat>, events: seq<Event>, n: nat)
    requires 0 < n <= |events| && events[n - 1].Captured?
  {
    BlockIP.NeverUnblocked(Calls(ports, events[..n]), CallsAfter(ports, events, n),
                           Address(events[n - 1].packet.source))
  }

  lemma CallsAtReport(ports: set<nat>, events: seq<Event>, n: nat)
    requires 0 < n <= |events| && events[n - 1].Captured? && LastDecision(ports, events[..n]).Scan?
    ensures LastDecision(ports, events[..n]).source == events[n - 1].packet.source
    ensures Calls(ports, events[..n])
         == Calls(ports, events[..n - 1]) + [BlockIP.Block(Address(events[n - 1].packet.source), events[n - 1].answers)]
  {
    assert Init(events[..n]) == events[..n - 1] && Last(events[..n]) == events[n - 1];
  }

  /** End to end: once the detector has reported a host and the block call returned true, and as long as no other
      caller succeeds in unblocking it, every later IPv4 frame from it is dropped on the wire, if and only if the
      first load attached the filter, whoever made that call. */
  lemma ReportedIsKeptOut(ports: set<nat>, events: seq<Event>, n: nat, frame: Frames.Frame)
    requires 0 < n <= |events| && events[n - 1].Captured? && LastDecision(ports, events[..n]).Scan?
    requires CallReturnsTrue(ports, events, n) && StaysListed(ports, events, n)
    requires HasSource(frame) && Source(frame) == Address(events[n - 1].packet.source)
    ensures var calls := Calls(ports, events);
            BlockIP.OnTheWire(Watched(ports, events).list, frame) == Frames.XdpDrop <==>
              BlockIP.FirstLoadAttached(calls)
  {
    var event := events[n - 1];
    ListFollowsCalls(ports, events);
    var before, call := Calls(ports, events[..n - 1]), BlockIP.Block(Address(event.packet.source), event.answers);
    CallsAtReport(ports, events, n);
    var later := CallsExtend(ports, events, n);
    assert CallsAfter(ports, events, n) == later;
    BlockIP.BlockedKeyIsKeptOut(before, Address(event.packet.source), event.answers, later, frame);
    assert (before + [call])[|before|].Block?;
    BlockIP.LoadIsSettled(before + [call], later);
  }

  /** The event that brought the i-th packet of the detector's trace. */
  lemma {:induction false} EventOfPacket(events: seq<Event>, i: nat) returns (n: nat)
    requires i < |Trace(events)|
    ensures 0 < n <= |events| && events[n - 1].Captured? && Trace(events[..n]) == Trace(events)[..i + 1]
  {
    if i < |Trace(Init(events))| {
      n := EventOfPacket(Init(events), i);
      assert Init(events)[..n] == events[..n];
    } else {
      n := |events|;
      assert events[..n] == events && Trace(events)[..i + 1] == Trace(events);
    }
  }

  lemma ReportAtEvent(ports: set<nat>, events: seq<Event>, i: nat, n: nat)
    requires i < |Trace(events)| && DecisionAt(ports, Trace(events), i).Scan?
    requires 0 < n <= |events| && events[n - 1].Captured? && Trace(events[..n]) == Trace(events)[..i + 1]
    ensures LastDecision(ports, events[..n]).Scan? && events[n - 1].packet == Trace(events)[i]
  {
    PrefixEnds(events, n - 1);
    PrefixEnds(Trace(events), i);
    DecisionOnTrace(ports, events[..n]);
  }

  /** From the burst to the wire: if 199 monitored packets within less than 16 ms and a TCP packet 16 ms later reach
      the detector, among whatever other events, then one of the packets up to that one is reported; and if the block
      call made there returned true, then until some call succeeds in unblocking its source, every later IPv4 frame
      from that source is dropped on the wire if and only if the first load attached the filter. */
  lemma BurstIsKeptOut(ports: set<nat>, events: seq<Event>, a: nat, b: nat, c: nat) returns (i: nat, n: nat)
    requires var trace := Trace(events);
             && Nondecreasing(trace) && a <= b < c < |trace|
             && trace[b].now - trace[a].now < 16_000_000
             && Count(ports, trace[..b + 1], a) >= 2 * PORT - 1
             && trace[c].tcpIp && trace[c].now >= trace[b].now + 16_000_000
    ensures a <= i <= c && 0 < n <= |events| && events[n - 1].Captured?
    ensures Trace(events[..n]) == Trace(events)[..i + 1] && LastDecision(ports, events[..n]).Scan?
    ensures forall frame :: HasSource(frame) && Source(frame) == Address(events[n - 1].packet.source)
                            && CallReturnsTrue(ports, events, n) && StaysListed(ports, events, n) ==>
              var calls := Calls(ports, events);
              (BlockIP.OnTheWire(Watched(ports, events).list, frame) == Frames.XdpDrop <==>
                BlockIP.FirstLoadAttached(calls))
  {
    i := BurstIsReported(ports, Trace(events), a, b, c);
    n := EventOfPacket(events, i);
    ReportAtEvent(ports, events, i, n);
    forall frame | HasSource(frame) && Source(frame) == Address(events[n - 1].packet.source)
                   && CallReturnsTrue(ports, events, n) && StaysListed(ports, events, n)
      ensures var calls := Calls(ports, events);
              (BlockIP.OnTheWire(Watched(ports, events).list, frame) == Frames.XdpDrop <==>
                BlockIP.FirstLoadAttached(calls))
    {
      ReportedIsKeptOut(ports, events, n, frame);
    }
  }
}
