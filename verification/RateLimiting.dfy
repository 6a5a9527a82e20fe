/** The XDP rate limiter: at most 27 messages per fixed window (cmake-build-debug/rate_limiting.bpf.c). */
module RateLimiting {
  import opened Frames
  import opened Sequences
  import opened Traces

  const MAX_MESSAGES_PER_SECOND: nat := 27

  datatype State = State(messagesCounter: int, lastSecond: int)

  const START := State(0, 0)

  /** One invocation, on values. */
  function Step(s: State, p: Packet): (State, Verdict) {
    if !p.toProxy then (s, XdpPass)
    else
      var s1 := if p.now >= s.lastSecond + SECOND then State(0, p.now) else s;
      if s1.messagesCounter >= MAX_MESSAGES_PER_SECOND then (s1, XdpDrop)
      else (s1.(messagesCounter := s1.messagesCounter + 1), XdpPass)
  }

  /** The program with its global variables. */
  class RateLimiter {
    var messagesCounter: int
    var lastSecond: int

    ghost function View(): State
      reads this
    {
      State(messagesCounter, lastSecond)
    }

    constructor ()
      ensures View() == START
    {
      messagesCounter, lastSecond := 0, 0;
    }

    method RateLimiting(frame: Frame, ktime: nat) returns (verdict: Verdict)
      modifies this
      ensures (View(), verdict) == Step(old(View()), Observe(frame, ktime))
    {
      var port := GetPacketDestPort(frame);
      if port != PROXY_PORT {
        return XdpPass;
      }
      var currentTime := ktime;
      if currentTime >= lastSecond + SECOND {
        messagesCounter := 0;
        lastSecond := currentTime;
      }
      if messagesCounter >= MAX_MESSAGES_PER_SECOND {
        return XdpDrop;
      }
      messagesCounter := messagesCounter + 1;
      return XdpPass;
    }
  }

  /** The state after a whole trace. */
  ghost function Run(trace: seq<Packet>): State {
    if trace == [] then START else Step(Run(Init(trace)), Last(trace)).0
  }

  ghost function VerdictAt(trace: seq<Packet>, i: nat): Verdict
    requires i < |trace|
  {
    Step(Run(trace[..i]), trace[i]).1
  }

  // ------------------------------------------------------------------------------------------
  // The reference: fixed windows, told from the arrival times alone
  // ------------------------------------------------------------------------------------------

  /** When the current window opened. A window opens with the first proxy packet a second or more after the last. */
  ghost function WindowOpened(trace: seq<Packet>): nat {
    if trace == [] then 0
    else if Last(trace).toProxy && Last(trace).now >= WindowOpened(Init(trace)) + 1_000_000_000 then
      Last(trace).now
    else WindowOpened(Init(trace))
  }

  /** Whether the last packet opens a window. */
  ghost predicate LastOpens(trace: seq<Packet>)
    requires trace != []
  {
    Last(trace).toProxy && Last(trace).now >= WindowOpened(Init(trace)) + 1_000_000_000
  }

  /** The index of the first packet of the current window. */
  ghost function WindowStart(trace: seq<Packet>): (start: nat)
    ensures trace == [] ==> start == 0
    ensures trace != [] ==> start < |trace|
  {
    if trace == [] then 0
    else if LastOpens(trace) then |trace| - 1
    else WindowStart(Init(trace))
  }

  ghost function Min(a: int, b: int): int {
    if a <= b then a else b
  }

  /** The counter never passes 27, and it counts the current window's proxy packets up to that. */
  lemma {:induction false} CounterCountsWindow(trace: seq<Packet>)
    ensures Run(trace).lastSecond == WindowOpened(trace)
    ensures Run(trace).messagesCounter == Min(MAX_MESSAGES_PER_SECOND, PortCount(trace, WindowStart(trace)))
  {
    if trace != [] {
      CounterCountsWindow(Init(trace));
      if WindowStart(trace) == |trace| - 1 {
        assert PortCount(Init(trace), |trace| - 1) == 0;
      }
    }
  }

  /** Exact behaviour: a packet is dropped exactly when it is to the proxy and is not among the first 27 proxy
      packets of its window. */
  lemma DropsBeyondTwentySeven(trace: seq<Packet>, i: nat)
    requires i < |trace|
    ensures VerdictAt(trace, i) == XdpDrop
       <==> trace[i].toProxy && PortCount(trace[..i + 1], WindowStart(trace[..i + 1])) > 27
  {
    var t := trace[..i + 1];
    assert Init(t) == trace[..i] && Last(t) == trace[i];
    CounterCountsWindow(Init(t));
    CounterCountsWindow(t);
  }

  /** The same told from the bytes: of all frames handed to the program, exactly those to port 9090 are dropped that
      are not among the first 27 such of their window. */
  lemma FramesBeyondTwentySeven(input: seq<Timed>, i: nat)
    requires i < |input|
    ensures VerdictAt(Observed(input), i) == XdpDrop
       <==> && ProxyBytes(input[i].frame)
            && FramesFrom(input[..i + 1], WindowStart(Observed(input[..i + 1]))) > 27
  {
    DropsBeyondTwentySeven(Observed(input), i);
    ObservedPrefix(input, i + 1);
    ObservedCounts(input[..i + 1], WindowStart(Observed(input[..i + 1])));
    ObserveTells(input[i].frame, input[i].ktime);
  }

  // ------------------------------------------------------------------------------------------
  // Sliding windows
  // ------------------------------------------------------------------------------------------

  ghost predicate LastPasses(trace: seq<Packet>)
    requires trace != []
  {
    Last(trace).toProxy && Step(Run(Init(trace)), Last(trace)).1 == XdpPass
  }

  /** Proxy packets passed with arrival time in [from, to). */
  ghost function PassedIn(trace: seq<Packet>, from: int, to: int): nat {
    if trace == [] then 0
    else PassedIn(Init(trace), from, to) + (if LastPasses(trace) && from <= Last(trace).now < to then 1 else 0)
  }

  /** Windows opened at or after `from`. */
  ghost function OpenedSince(trace: seq<Packet>, from: int): nat {
    if trace == [] then 0
    else OpenedSince(Init(trace), from)
         + (if LastOpens(trace) && Last(trace).now >= from then 1 else 0)
  }

  lemma {:induction false} OpenedBeforeNow(trace: seq<Packet>)
    requires Nondecreasing(trace) && trace != []
    ensures WindowOpened(trace) <= Last(trace).now
    decreases |trace|
  {
    if |trace| > 1 {
      OpenedBeforeNow(Init(trace));
    }
  }

  /** Windows open at least a second apart, and each passes at most 27. */
  lemma {:induction false} WindowsCoverPassed(trace: seq<Packet>, from: int, to: int)
    requires Nondecreasing(trace)
    ensures var n := OpenedSince(trace, from);
            && PassedIn(trace, from, to)
               <= MAX_MESSAGES_PER_SECOND * n + Min(MAX_MESSAGES_PER_SECOND, PortCount(trace, WindowStart(trace)))
            && (n > 0 ==> WindowOpened(trace) >= from + (n - 1) * SECOND)
    ensures trace == [] || Last(trace).now < from ==> PassedIn(trace, from, to) == 0
  {
    CounterCountsWindow(trace);
    if trace != [] {
      CounterCountsWindow(Init(trace));
      WindowsCoverPassed(Init(trace), from, to);
    }
  }

  /** Over any k seconds at most 27 * (k + 1) proxy packets pass. */
  lemma {:induction false} SlidingBound(trace: seq<Packet>, from: int, k: nat)
    requires Nondecreasing(trace)
    ensures PassedIn(trace, from, from + k * SECOND) <= MAX_MESSAGES_PER_SECOND * (k + 1)
  {
    var to := from + k * SECOND;
    if trace != [] {
      if Last(trace).now >= to {
        SlidingBound(Init(trace), from, k);
      } else {
        WindowsCoverPassed(trace, from, to);
        CounterCountsWindow(trace);
        OpenedBeforeNow(trace);
        assert OpenedSince(trace, from) > 0 ==> (OpenedSince(trace, from) - 1) * SECOND < k * SECOND;
      }
    }
  }

  // ------------------------------------------------------------------------------------------
  // The bound is attained
  // ------------------------------------------------------------------------------------------

  function Message(now: nat): Packet {
    Arrival(true, 54, now)
  }

  /** 27 packets just before one second is over, then 27 at each of the seconds 1 to k. */
  ghost function FullLoad(k: nat): seq<Packet> {
    if k == 0 then Copies(Message(SECOND - 1), MAX_MESSAGES_PER_SECOND)
    else FullLoad(k - 1) + Copies(Message(k * SECOND), MAX_MESSAGES_PER_SECOND)
  }

  /** A burst that finds the counter at 0, or opens a window, passes up to 27 packets. */
  lemma {:induction false} BurstPasses(trace: seq<Packet>, p: Packet, n: nat, from: int, to: int)
    requires p.toProxy && from <= p.now < to && n <= MAX_MESSAGES_PER_SECOND
    requires Run(trace).messagesCounter == 0 || p.now >= Run(trace).lastSecond + SECOND
    ensures PassedIn(trace + Copies(p, n), from, to) == PassedIn(trace, from, to) + n
    ensures n > 0 ==> Run(trace + Copies(p, n)) ==
                      State(n, if p.now >= Run(trace).lastSecond + SECOND then p.now else Run(trace).lastSecond)
    decreases n
  {
    if n == 0 {
      assert trace + Copies(p, 0) == trace;
    } else {
      BurstPasses(trace, p, n - 1, from, to);
      CopiesGrow(trace, p, n);
      if n == 1 {
        assert trace + Copies(p, 0) == trace;
      }
    }
  }

  lemma {:induction false} FullLoadShape(k: nat)
    ensures Nondecreasing(FullLoad(k))
    ensures FullLoad(k) != [] && Last(FullLoad(k)).now == if k == 0 then SECOND - 1 else k * SECOND
  {
    if k > 0 {
      FullLoadShape(k - 1);
    }
  }

  lemma FullLoadNext(k: nat, from: int, to: int)
    requires k > 0 && from < SECOND && k * SECOND < to
    requires Run(FullLoad(k - 1)).lastSecond == (k - 1) * SECOND
    ensures Run(FullLoad(k)) == State(MAX_MESSAGES_PER_SECOND, k * SECOND)
    ensures PassedIn(FullLoad(k), from, to) == PassedIn(FullLoad(k - 1), from, to) + MAX_MESSAGES_PER_SECOND
  {
    BurstPasses(FullLoad(k - 1), Message(k * SECOND), MAX_MESSAGES_PER_SECOND, from, to);
  }

  lemma {:induction false} FullLoadPasses(k: nat, from: int, to: int)
    requires from < SECOND && k * SECOND < to && SECOND - 1 < to
    ensures Run(FullLoad(k)) == State(MAX_MESSAGES_PER_SECOND, k * SECOND)
    ensures PassedIn(FullLoad(k), from, to) == MAX_MESSAGES_PER_SECOND * (k + 1)
  {
    if k == 0 {
      assert [] + FullLoad(0) == FullLoad(0);
      BurstPasses([], Message(SECOND - 1), MAX_MESSAGES_PER_SECOND, from, to);
    } else {
      FullLoadPasses(k - 1, from, to);
      FullLoadNext(k, from, to);
    }
  }

  /** No smaller bound holds: for every k >= 1 some trace passes 27 * (k + 1) packets within k seconds.
      With k = 1: 54 messages in a single second. */
  lemma SlidingBoundIsTight(k: nat)
    requires k >= 1
    ensures Nondecreasing(FullLoad(k))
    ensures PassedIn(FullLoad(k), SECOND - 1, SECOND - 1 + k * SECOND) == MAX_MESSAGES_PER_SECOND * (k + 1)
  {
    FullLoadShape(k);
    FullLoadPasses(k, SECOND - 1, SECOND - 1 + k * SECOND);
  }

  // ------------------------------------------------------------------------------------------
  // What a drop says about the traffic
  // ------------------------------------------------------------------------------------------

  lemma {:induction false} WindowPacketsAreRecent(trace: seq<Packet>)
    requires Nondecreasing(trace)
    ensures forall i :: WindowStart(trace) <= i < |trace| ==> trace[i].now >= WindowOpened(trace)
    ensures trace != [] && Last(trace).toProxy ==> Last(trace).now < WindowOpened(trace) + SECOND
  {
    if trace != [] {
      WindowPacketsAreRecent(Init(trace));
      OpenedBeforeNow(trace);
    }
  }

  lemma WindowWithinSecond(trace: seq<Packet>)
    requires Nondecreasing(trace) && trace != [] && Last(trace).toProxy
    ensures PortCount(trace, WindowStart(trace)) <= PortIn(trace, Last(trace).now - SECOND, Last(trace).now)
  {
    WindowPacketsAreRecent(trace);
    PortCountWithin(trace, WindowStart(trace), Last(trace).now - SECOND, Last(trace).now);
  }

  /** A packet is dropped only when more than 27 proxy packets, itself included, arrived within the last second. */
  lemma DropNeedsTraffic(trace: seq<Packet>, i: nat)
    requires Nondecreasing(trace) && i < |trace| && VerdictAt(trace, i) == XdpDrop
    ensures PortIn(trace, trace[i].now - SECOND, trace[i].now) > MAX_MESSAGES_PER_SECOND
  {
    DropsBeyondTwentySeven(trace, i);
    NondecreasingPrefix(trace, i + 1);
    WindowWithinSecond(trace[..i + 1]);
    PortInPrefix(trace, i + 1, trace[i].now - SECOND, trace[i].now);
  }

  /** Traffic with at most 27 proxy packets in every second-long interval ending at an arrival is untouched. */
  lemma LightTrafficPasses(trace: seq<Packet>)
    requires Nondecreasing(trace)
    requires forall i :: 0 <= i < |trace| ==>
               PortIn(trace, trace[i].now - SECOND, trace[i].now) <= MAX_MESSAGES_PER_SECOND
    ensures forall i :: 0 <= i < |trace| ==> VerdictAt(trace, i) == XdpPass
  {
    forall i | 0 <= i < |trace| ensures VerdictAt(trace, i) == XdpPass {
      if VerdictAt(trace, i) == XdpDrop {
        DropNeedsTraffic(trace, i);
      }
    }
  }

  /** Passed packets split into those before the current window and the counter's worth within it. */
  lemma {:induction false} PassedSplits(trace: seq<Packet>, from: int, to: int)
    requires Nondecreasing(trace) && from <= WindowOpened(trace)
    requires trace != [] ==> Last(trace).now < to
    ensures PassedIn(trace, from, to) == PassedIn(trace[..WindowStart(trace)], from, to) + Run(trace).messagesCounter
  {
    CounterCountsWindow(trace);
    if trace != [] {
      var init := Init(trace);
      CounterCountsWindow(init);
      OpenedBeforeNow(trace);
      if LastOpens(trace) {
        assert trace[..WindowStart(trace)] == init;
      } else {
        PassedSplits(init, from, to);
        assert init[..WindowStart(init)] == trace[..WindowStart(trace)];
      }
    }
  }

  /** A drop is evidence of 27 packets passed within the last second, on top of those that passed in it before the
      current window. */
  lemma DropEvidence(trace: seq<Packet>, i: nat)
    requires Nondecreasing(trace) && i < |trace| && VerdictAt(trace, i) == XdpDrop
    ensures var from, to := trace[i].now - SECOND + 1, trace[i].now + 1;
            PassedIn(trace[..i], from, to)
            == MAX_MESSAGES_PER_SECOND + PassedIn(trace[..WindowStart(trace[..i])], from, to)
  {
    var t := trace[..i];
    CounterCountsWindow(t);
    PassedSplits(t, trace[i].now - SECOND + 1, trace[i].now + 1);
    assert t[..WindowStart(t)] == trace[..WindowStart(t)];
  }

  /** The j-th packet comes after 27 others of its window. */
  ghost predicate BeyondAt(trace: seq<Packet>, j: nat)
    requires j < |trace|
  {
    PortCount(trace[..j + 1], WindowStart(trace[..j + 1])) > 27
  }

  lemma BeyondInPrefix(trace: seq<Packet>, n: nat)
    requires n <= |trace|
    ensures forall j :: 0 <= j < n ==> trace[..n][j] == trace[j] && (BeyondAt(trace[..n], j) <==> BeyondAt(trace, j))
  {
    forall j: nat | j < n ensures BeyondAt(trace[..n], j) <==> BeyondAt(trace, j) {
      assert trace[..n][..j + 1] == trace[..j + 1];
    }
  }

  lemma LastBeyond(trace: seq<Packet>)
    requires trace != []
    ensures Last(trace).toProxy ==> (LastPasses(trace) <==> !BeyondAt(trace, |trace| - 1))
  {
    assert trace[..|trace|] == trace;
    DropsBeyondTwentySeven(trace, |trace| - 1);
  }

  lemma NonePassedLast(trace: seq<Packet>, from: int, to: int)
    requires trace != []
    ensures PassedIn(trace, from, to) == 0
       <==> && PassedIn(Init(trace), from, to) == 0
            && (Last(trace).toProxy && from <= Last(trace).now < to ==> BeyondAt(trace, |trace| - 1))
  {
    LastBeyond(trace);
  }

  ghost predicate AllBeyondIn(trace: seq<Packet>, from: int, to: int) {
    forall j :: 0 <= j < |trace| && trace[j].toProxy && from <= trace[j].now < to ==> BeyondAt(trace, j)
  }

  lemma AllBeyondLast(trace: seq<Packet>, from: int, to: int)
    requires trace != []
    ensures AllBeyondIn(trace, from, to)
       <==> && AllBeyondIn(Init(trace), from, to)
            && (Last(trace).toProxy && from <= Last(trace).now < to ==> BeyondAt(trace, |trace| - 1))
  {
    BeyondInPrefix(trace, |trace| - 1);
  }

  /** Nothing passed in [from, to) exactly when every proxy packet in it was beyond the first 27 of its window. */
  lemma {:induction false} NonePassed(trace: seq<Packet>, from: int, to: int)
    ensures PassedIn(trace, from, to) == 0 <==> AllBeyondIn(trace, from, to)
  {
    if trace != [] {
      NonePassed(Init(trace), from, to);
      NonePassedLast(trace, from, to);
      AllBeyondLast(trace, from, to);
    }
  }

  /** Every proxy packet among the first n that arrived after `after` was beyond the first 27 of its window. */
  ghost predicate AllBeyond(trace: seq<Packet>, n: nat, after: int)
    requires n <= |trace|
  {
    forall j :: 0 <= j < n && trace[j].toProxy && trace[j].now > after ==> BeyondAt(trace, j)
  }

  lemma NonePassedBefore(trace: seq<Packet>, n: nat, after: int, to: int)
    requires n <= |trace| && forall j :: 0 <= j < n ==> trace[j].now < to
    ensures PassedIn(trace[..n], after + 1, to) == 0 <==> AllBeyond(trace, n, after)
  {
    NonePassed(trace[..n], after + 1, to);
    BeyondInPrefix(trace, n);
  }

  /** The exact condition, told from the arrivals: at a drop, exactly 27 packets passed in the last second if and only
      if every proxy packet of that second from before the current window was beyond the first 27 of its own. */
  lemma ExactlyTwentySeven(trace: seq<Packet>, i: nat)
    requires Nondecreasing(trace) && i < |trace| && VerdictAt(trace, i) == XdpDrop
    ensures PassedIn(trace[..i], trace[i].now - SECOND + 1, trace[i].now + 1) == 27
       <==> AllBeyond(trace, WindowStart(trace[..i]), trace[i].now - SECOND)
  {
    DropEvidence(trace, i);
    NonePassedBefore(trace, WindowStart(trace[..i]), trace[i].now - SECOND, trace[i].now + 1);
  }

  /** More than 27 is possible: here 54 packets passed in the second before the drop. */
  lemma DropAfterFiftyFour()
    ensures var trace := FullLoad(1) + [Message(SECOND)];
            && VerdictAt(trace, |trace| - 1) == XdpDrop
            && PassedIn(Init(trace), 1, SECOND + 1) == 54
  {
    var trace := FullLoad(1) + [Message(SECOND)];
    assert Init(trace) == FullLoad(1);
    FullLoadPasses(1, 1, SECOND + 1);
  }
}
