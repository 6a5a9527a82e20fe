/** Packet traces: what an XDP program is invoked on, in order. */
module Traces {
  import opened Frames
  import opened Sequences

  const SECOND: nat := 1_000_000_000   // in nanoseconds

  /** What the limiters see of a frame: whether it is for the proxy, its length in bytes, and the kernel clock. */
  datatype Arrival = Arrival(toProxy: bool, length: nat, now: nat) {
    function Bits(): nat {
      8 * length
    }
  }

  /** A frame has a 32-bit length, and one for the proxy holds at least the three headers. */
  type Packet = a: Arrival | a.length < 0x1_0000_0000 && (a.toProxy ==> a.length >= 54) witness Arrival(false, 0, 0)

  function Observe(frame: Frame, ktime: nat): Packet {
    ShortFramesHaveNoPort(frame);
    Arrival(ForProxy(frame), |frame|, ktime)
  }

  /** A frame is for the proxy if it holds 54 bytes and 9090 stands where the port is looked for. */
  ghost predicate ProxyBytes(frame: Frame) {
    |frame| >= 54 && frame[36] == 0x23 && frame[37] == 0x82
  }

  lemma ObserveTells(frame: Frame, ktime: nat)
    ensures Observe(frame, ktime).toProxy <==> ProxyBytes(frame)
    ensures Observe(frame, ktime).length == |frame| && Observe(frame, ktime).now == ktime
  {
    if |frame| >= 54 {
      PortOfBytes(frame[36], frame[37], 9090);
      BytesOf9090();
    }
  }

  lemma BytesOf9090()
    ensures Wire16(9090) == [0x23, 0x82]
  {
  }

  /** An invocation: the frame, and what the clock says. */
  datatype Timed = Timed(frame: Frame, ktime: nat)

  ghost function Observed(input: seq<Timed>): (trace: seq<Packet>)
    ensures |trace| == |input|
    ensures forall i :: 0 <= i < |input| ==> trace[i] == Observe(input[i].frame, input[i].ktime)
  {
    seq(|input|, i requires 0 <= i < |input| => Observe(input[i].frame, input[i].ktime))
  }

  /** Frames for the proxy from index `lo` on, and their bits. */
  ghost function FramesFrom(input: seq<Timed>, lo: nat): nat {
    if |input| <= lo then 0
    else FramesFrom(Init(input), lo) + (if ProxyBytes(Last(input).frame) then 1 else 0)
  }

  ghost function BitsFrom(input: seq<Timed>, lo: nat): nat {
    if |input| <= lo then 0
    else BitsFrom(Init(input), lo) + (if ProxyBytes(Last(input).frame) then 8 * |Last(input).frame| else 0)
  }

  lemma {:induction false} ObservedCounts(input: seq<Timed>, lo: nat)
    ensures PortCount(Observed(input), lo) == FramesFrom(input, lo)
    ensures PortBits(Observed(input), lo) == BitsFrom(input, lo)
  {
    if |input| > lo {
      ObservedCounts(Init(input), lo);
      assert Init(Observed(input)) == Observed(Init(input));
      ObserveTells(Last(input).frame, Last(input).ktime);
    }
  }

  lemma ObservedPrefix(input: seq<Timed>, n: nat)
    requires n <= |input|
    ensures Observed(input)[..n] == Observed(input[..n])
  {
  }

  ghost predicate Nondecreasing(trace: seq<Packet>) {
    forall i, j :: 0 <= i <= j < |trace| ==> trace[i].now <= trace[j].now
  }

  lemma NondecreasingPrefix(trace: seq<Packet>, n: nat)
    requires Nondecreasing(trace) && n <= |trace|
    ensures Nondecreasing(trace[..n])
    ensures forall i :: 0 <= i < n ==> trace[..n][i].now <= trace[n - 1].now
  {
  }

  /** Proxy packets from index `lo` on. */
  ghost function PortCount(trace: seq<Packet>, lo: nat): nat {
    if |trace| <= lo then 0
    else PortCount(Init(trace), lo) + (if Last(trace).toProxy then 1 else 0)
  }

  /** Proxy packets with arrival time in the interval (after, upTo]. */
  ghost function PortIn(trace: seq<Packet>, after: int, upTo: int): nat {
    if trace == [] then 0
    else PortIn(Init(trace), after, upTo)
         + (if Last(trace).toProxy && after < Last(trace).now <= upTo then 1 else 0)
  }

  /** Bits of the proxy packets from index `lo` on. */
  ghost function PortBits(trace: seq<Packet>, lo: nat): nat {
    if |trace| <= lo then 0
    else PortBits(Init(trace), lo) + (if Last(trace).toProxy then Last(trace).Bits() else 0)
  }

  /** Bits of the proxy packets with arrival time in the interval (after, upTo]. */
  ghost function PortBitsIn(trace: seq<Packet>, after: int, upTo: int): nat {
    if trace == [] then 0
    else PortBitsIn(Init(trace), after, upTo)
         + (if Last(trace).toProxy && after < Last(trace).now <= upTo then Last(trace).Bits() else 0)
  }

  lemma {:induction false} PortInPrefix(trace: seq<Packet>, n: nat, after: int, upTo: int)
    requires n <= |trace|
    ensures PortIn(trace[..n], after, upTo) <= PortIn(trace, after, upTo)
    ensures PortBitsIn(trace[..n], after, upTo) <= PortBitsIn(trace, after, upTo)
  {
    if n == |trace| {
      assert trace[..n] == trace;
    } else {
      PortInPrefix(Init(trace), n, after, upTo);
      assert Init(trace)[..n] == trace[..n];
    }
  }

  /** If everything from index `lo` on arrived within (after, upTo], counting by index is within counting by time. */
  lemma {:induction false} PortCountWithin(trace: seq<Packet>, lo: nat, after: int, upTo: int)
    requires forall i :: lo <= i < |trace| ==> after < trace[i].now <= upTo
    ensures PortCount(trace, lo) <= PortIn(trace, after, upTo)
    ensures PortBits(trace, lo) <= PortBitsIn(trace, after, upTo)
  {
    if lo < |trace| {
      PortCountWithin(Init(trace), lo, after, upTo);
    }
  }
}
