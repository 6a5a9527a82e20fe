/** The XDP bandwidth limiter: a budget of bits refilled every second (cmake-build-debug/bandwidth_limit.bpf.c). */
module BandwidthLimit {
  import opened Frames
  import opened Sequences
  import opened Traces

  const BITS: int := 10_000_000

  /** The program's global variables. Clock values are mathematical integers; MAX_BITS is a signed 64-bit number. */
  datatype State = State(maxBits: int, startTime: int, endTime: int, totalTime: int, initial: bool)

  const START := State(BITS, 0, 0, 0, false)

  /** One invocation, on values. */
  function Step(s: State, p: Packet): (State, Verdict) {
    var s1 := s.(startTime := s.endTime);
    if !p.toProxy then (s1, XdpPass)
    else
      var s2 := if s1.initial then s1 else s1.(startTime := s1.endTime, initial := true);
      var s3 := s2.(endTime := p.now, totalTime := s2.totalTime + (p.now - s2.startTime));
      if s3.totalTime >= SECOND then (s3.(maxBits := BITS, totalTime := 0), XdpPass)
      else if s3.maxBits <= 0 then (s3, XdpDrop)
      else (s3.(maxBits := s3.maxBits - p.Bits()), XdpPass)
  }

  class BandwidthLimiter {
    var maxBits: int
    var startTime: int
    var endTime: int
    var totalTime: int
    var initial: bool

    ghost function View(): State
      reads this
    {
      State(maxBits, startTime, endTime, totalTime, initial)
    }

    constructor ()
      ensures View() == START
    {
      maxBits, startTime, endTime, totalTime, initial := BITS, 0, 0, 0, false;
    }

    method BandwidthLimit(frame: Frame, ktime: nat) returns (verdict: Verdict)
      modifies this
      ensures (View(), verdict) == Step(old(View()), Observe(frame, ktime))
    {
      var port := GetPacketDestPort(frame);
      startTime := endTime;
      if port != PROXY_PORT {
        return XdpPass;
      }
      if !initial {
        startTime := endTime;
        initial := true;
      }
      endTime := ktime;
      totalTime := totalTime + (endTime - startTime);
      if totalTime >= SECOND {
        maxBits := BITS;
        totalTime := 0;
        return XdpPass;
      }
      if maxBits <= 0 {
        return XdpDrop;
      }
      var packetLengthBytes := |frame|;
      var packetLengthBits := packetLengthBytes * 8;
      maxBits := maxBits - packetLengthBits;
      return XdpPass;
    }
  }

  ghost function Run(trace: seq<Packet>): State {
    if trace == [] then START else Step(Run(Init(trace)), Last(trace)).0
  }

  ghost function VerdictAt(trace: seq<Packet>, i: nat): Verdict
    requires i < |trace|
  {
    Step(Run(trace[..i]), trace[i]).1
  }

  // ------------------------------------------------------------------------------------------
  // A simpler machine with the same verdicts
  // ------------------------------------------------------------------------------------------

  /** When the budget was last refilled, and what is left of it. */
  datatype Meter = Meter(refilled: int, budget: int)

  function MeterStep(m: Meter, p: Packet): (Meter, Verdict) {
    if !p.toProxy then (m, XdpPass)
    else if p.now - m.refilled >= SECOND then (Meter(p.now, BITS), XdpPass)
    else if m.budget <= 0 then (m, XdpDrop)
    else (Meter(m.refilled, m.budget - p.Bits()), XdpPass)
  }

  ghost function MeterRun(trace: seq<Packet>): Meter {
    if trace == [] then Meter(0, BITS) else MeterStep(MeterRun(Init(trace)), Last(trace)).0
  }

  /** The arrival time of the last proxy packet, 0 before the first. */
  ghost function LastProxyTime(trace: seq<Packet>): int {
    if trace == [] then 0 else if Last(trace).toProxy then Last(trace).now else LastProxyTime(Init(trace))
  }

  /** The elapsed time the program accumulates telescopes, across dropped and foreign packets too: it is always
      the time from the last refill to the last proxy packet. */
  lemma {:induction false} ElapsedTelescopes(trace: seq<Packet>)
    ensures var s, m := Run(trace), MeterRun(trace);
            && s.totalTime == LastProxyTime(trace) - m.refilled
            && s.endTime == LastProxyTime(trace)
            && s.maxBits == m.budget
  {
    if trace != [] {
      ElapsedTelescopes(Init(trace));
    }
  }

  /** On every trace the program's five variables give the verdicts of the two-variable meter. */
  lemma RefinesMeter(trace: seq<Packet>, i: nat)
    requires i < |trace|
    ensures VerdictAt(trace, i) == MeterStep(MeterRun(trace[..i]), trace[i]).1
  {
    ElapsedTelescopes(trace[..i]);
  }

  // ------------------------------------------------------------------------------------------
  // The reference: what a window has carried, told from the arrivals alone
  // ------------------------------------------------------------------------------------------

  /** When the budget was last refilled: the first proxy packet a second or more after the last refill. */
  ghost function Refilled(trace: seq<Packet>): nat {
    if trace == [] then 0
    else if Last(trace).toProxy && Last(trace).now - Refilled(Init(trace)) >= 1_000_000_000 then Last(trace).now
    else Refilled(Init(trace))
  }

  ghost predicate LastRefills(trace: seq<Packet>)
    requires trace != []
  {
    Last(trace).toProxy && Last(trace).now - Refilled(Init(trace)) >= 1_000_000_000
  }

  /** The index after the packet that refilled the budget; that packet itself is not charged. */
  ghost function ChargedFrom(trace: seq<Packet>): (lo: nat)
    ensures lo <= |trace|
  {
    if trace == [] then 0 else if LastRefills(trace) then |trace| else ChargedFrom(Init(trace))
  }

  ghost predicate LastPasses(trace: seq<Packet>)
    requires trace != []
  {
    Last(trace).toProxy && Step(Run(Init(trace)), Last(trace)).1 == XdpPass
  }

  /** Bits of the proxy packets passed, from index `lo` on. */
  ghost function PassedBitsFrom(trace: seq<Packet>, lo: nat): nat {
    if |trace| <= lo then 0
    else PassedBitsFrom(Init(trace), lo) + (if LastPasses(trace) then Last(trace).Bits() else 0)
  }

  /** The missing budget is exactly what was passed since the last refill, and the budget runs out exactly when
      the proxy traffic since then, passed or not, reaches BITS. */
  lemma {:induction false} BudgetConservation(trace: seq<Packet>)
    ensures MeterRun(trace).refilled == Refilled(trace)
    ensures BITS - Run(trace).maxBits == PassedBitsFrom(trace, ChargedFrom(trace))
    ensures Run(trace).maxBits <= 0 <==> PortBits(trace, ChargedFrom(trace)) >= BITS
    ensures Run(trace).maxBits > 0 ==> PortBits(trace, ChargedFrom(trace)) == BITS - Run(trace).maxBits
  {
    ElapsedTelescopes(trace);
    if trace != [] {
      BudgetConservation(Init(trace));
      ElapsedTelescopes(Init(trace));
    }
  }

  /** Every packet leaves the budget a multiple of 8, at most BITS, and overdrawn by less than one packet;
      so MAX_BITS never leaves the range of its type. */
  lemma {:induction false} BudgetBounds(trace: seq<Packet>, maxLength: nat)
    requires forall i :: 0 <= i < |trace| ==> trace[i].length <= maxLength
    ensures Run(trace).maxBits % 8 == 0
    ensures 8 - 8 * maxLength <= Run(trace).maxBits <= BITS
  {
    if trace != [] {
      BudgetBounds(Init(trace), maxLength);
    }
  }

  lemma MaxBitsFitsItsType(trace: seq<Packet>)
    ensures -0x8000_0000_0000_0000 <= Run(trace).maxBits < 0x8000_0000_0000_0000
  {
    BudgetBounds(trace, 0xFFFF_FFFF);
  }

  lemma StepDropsBeyondBudget(before: seq<Packet>, p: Packet)
    ensures Step(Run(before), p).1 == XdpDrop
       <==> && p.toProxy
            && p.now < Refilled(before) + SECOND
            && PortBits(before, ChargedFrom(before)) >= BITS
  {
    ElapsedTelescopes(before);
    BudgetConservation(before);
  }

  /** Exact behaviour: a proxy packet is dropped exactly when the last refill is less than a second old and the
      proxy traffic since it has reached BITS. */
  lemma DropsBeyondBudget(trace: seq<Packet>, i: nat)
    requires i < |trace|
    ensures VerdictAt(trace, i) == XdpDrop
       <==> && trace[i].toProxy
            && trace[i].now < Refilled(trace[..i]) + 1_000_000_000
            && PortBits(trace[..i], ChargedFrom(trace[..i])) >= 10_000_000
  {
    StepDropsBeyondBudget(trace[..i], trace[i]);
  }

  /** The same told from the bytes: of all frames handed to the program, exactly those to port 9090 are dropped that
      come within a second of the last refill when the whole lengths of such frames since it have reached the budget. */
  lemma FramesBeyondBudget(input: seq<Timed>, i: nat)
    requires i < |input|
    ensures VerdictAt(Observed(input), i) == XdpDrop
       <==> && ProxyBytes(input[i].frame)
            && input[i].ktime < Refilled(Observed(input[..i])) + 1_000_000_000
            && BitsFrom(input[..i], ChargedFrom(Observed(input[..i]))) >= 10_000_000
  {
    DropsBeyondBudget(Observed(input), i);
    ObservedPrefix(input, i);
    ObservedCounts(input[..i], ChargedFrom(Observed(input[..i])));
    ObserveTells(input[i].frame, input[i].ktime);
  }

  lemma {:induction false} ChargedAreRecent(trace: seq<Packet>)
    requires Nondecreasing(trace)
    ensures trace != [] ==> Refilled(trace) <= Last(trace).now
    ensures forall i :: ChargedFrom(trace) <= i < |trace| ==> trace[i].now >= Refilled(trace)
  {
    if trace != [] {
      ChargedAreRecent(Init(trace));
    }
  }

  lemma ChargedWithinSecond(before: seq<Packet>, now: int)
    requires Nondecreasing(before) && now < Refilled(before) + SECOND
    requires forall i :: 0 <= i < |before| ==> before[i].now <= now
    ensures PortBits(before, ChargedFrom(before)) <= PortBitsIn(before, now - SECOND, now)
  {
    ChargedAreRecent(before);
    PortCountWithin(before, ChargedFrom(before), now - SECOND, now);
  }

  lemma LastDropNeedsTraffic(t: seq<Packet>)
    requires Nondecreasing(t) && t != [] && Step(Run(Init(t)), Last(t)).1 == XdpDrop
    ensures PortBitsIn(t, Last(t).now - SECOND, Last(t).now) > BITS
  {
    StepDropsBeyondBudget(Init(t), Last(t));
    ChargedWithinSecond(Init(t), Last(t).now);
  }

  /** A drop needs more than BITS bits of proxy traffic, its own included, within the last second. */
  lemma DropNeedsTraffic(trace: seq<Packet>, i: nat)
    requires Nondecreasing(trace) && i < |trace| && VerdictAt(trace, i) == XdpDrop
    ensures PortBitsIn(trace, trace[i].now - SECOND, trace[i].now) > BITS
  {
    PrefixEnds(trace, i);
    NondecreasingPrefix(trace, i + 1);
    LastDropNeedsTraffic(trace[..i + 1]);
    PortInPrefix(trace, i + 1, trace[i].now - SECOND, trace[i].now);
  }

  /** Traffic with at most BITS bits in every second-long interval ending at an arrival is untouched. */
  lemma LightTrafficPasses(trace: seq<Packet>)
    requires Nondecreasing(trace)
    requires forall i :: 0 <= i < |trace| ==> PortBitsIn(trace, trace[i].now - SECOND, trace[i].now) <= BITS
    ensures forall i :: 0 <= i < |trace| ==> VerdictAt(trace, i) == XdpPass
  {
    forall i | 0 <= i < |trace| ensures VerdictAt(trace, i) == XdpPass {
      if VerdictAt(trace, i) == XdpDrop {
        DropNeedsTraffic(trace, i);
      }
    }
  }

  // ------------------------------------------------------------------------------------------
  // Sliding windows
  // ------------------------------------------------------------------------------------------

  /** Bits of the proxy packets passed with arrival time in [from, to). */
  ghost function PassedBitsIn(trace: seq<Packet>, from: int, to: int): nat {
    if trace == [] then 0
    else PassedBitsIn(Init(trace), from, to)
         + (if LastPasses(trace) && from <= Last(trace).now < to then Last(trace).Bits() else 0)
  }

  ghost function RefillsSince(trace: seq<Packet>, from: int): nat {
    if trace == [] then 0
    else RefillsSince(Init(trace), from) + (if LastRefills(trace) && Last(trace).now >= from then 1 else 0)
  }

  /** The most one refill can let through: everything but a last 8 bits, then one whole packet. */
  function PerRefill(maxLength: nat): nat {
    (BITS - 8) as nat + 8 * maxLength
  }

  /** What one packet does to the budget: nothing, a refill, or a charge. */
  lemma BudgetNext(trace: seq<Packet>)
    requires trace != []
    ensures var before, after := Run(Init(trace)).maxBits, Run(trace).maxBits;
            && (LastRefills(trace) ==> after == BITS)
            && (!LastRefills(trace) && LastPasses(trace) ==> after == before - Last(trace).Bits())
            && (!LastRefills(trace) && !LastPasses(trace) ==> after == before)
  {
    BudgetConservation(Init(trace));
    ElapsedTelescopes(Init(trace));
  }

  lemma {:induction false} RefillsCoverPassed(trace: seq<Packet>, from: int, to: int, maxLength: nat)
    requires Nondecreasing(trace)
    requires forall i :: 0 <= i < |trace| ==> trace[i].length <= maxLength
    ensures PassedBitsIn(trace, from, to)
         <= RefillsSince(trace, from) * (PerRefill(maxLength) + 8 * maxLength) + (BITS - Run(trace).maxBits)
    ensures RefillsSince(trace, from) > 0 ==> Refilled(trace) >= from + (RefillsSince(trace, from) - 1) * SECOND
    ensures trace == [] || Last(trace).now < from ==> PassedBitsIn(trace, from, to) == 0 == RefillsSince(trace, from)
  {
    if trace != [] {
      var init := Init(trace);
      RefillsCoverPassed(init, from, to, maxLength);
      BudgetNext(trace);
      BudgetBounds(init, maxLength);
      if LastRefills(trace) && Last(trace).now >= from {
        RefillStartsOver(PassedBitsIn(init, from, to), RefillsSince(init, from), BITS - Run(init).maxBits,
                         Last(trace).Bits(), PerRefill(maxLength), 8 * maxLength);
      } else if LastRefills(trace) {
        BudgetBounds(trace, maxLength);
      }
    }
  }

  lemma RefillStartsOver(passed: nat, n: nat, charged: int, bits: nat, refill: nat, extra: nat)
    requires passed <= n * (refill + extra) + charged && charged <= refill && bits <= extra
    ensures passed + bits <= (n + 1) * (refill + extra)
  {
  }

  lemma Accumulate(passed: nat, n: nat, k: nat, refill: nat, extra: nat)
    requires n <= k && passed <= n * (refill + extra) + refill
    ensures passed <= (k + 1) * refill + k * extra
  {
    assert n * (refill + extra) <= k * (refill + extra);
    assert k * (refill + extra) == k * refill + k * extra;
  }

  /** Over any k seconds, with packets of at most `maxLength` bytes, the bits passed are bounded by k + 1 refills'
      worth plus k packets that refill without being charged. */
  lemma {:induction false} SlidingBound(trace: seq<Packet>, from: int, k: nat, maxLength: nat)
    requires Nondecreasing(trace)
    requires forall i :: 0 <= i < |trace| ==> trace[i].length <= maxLength
    ensures PassedBitsIn(trace, from, from + k * SECOND) <= (k + 1) * PerRefill(maxLength) + k * (8 * maxLength)
  {
    var to := from + k * SECOND;
    if trace != [] {
      if Last(trace).now >= to {
        SlidingBound(Init(trace), from, k, maxLength);
      } else {
        var n := RefillsSince(trace, from);
        RefillsCoverPassed(trace, from, to, maxLength);
        BudgetBounds(trace, maxLength);
        ChargedAreRecent(trace);
        assert n > 0 ==> (n - 1) * SECOND < k * SECOND;
        Accumulate(PassedBitsIn(trace, from, to), n, k, PerRefill(maxLength), 8 * maxLength);
      }
    }
  }

  // ------------------------------------------------------------------------------------------
  // The bound is attained
  // ------------------------------------------------------------------------------------------

  function Sized(length: nat, now: nat): Packet
    requires 54 <= length < 0x1_0000_0000
  {
    Arrival(true, length, now)
  }

  /** Just before one second is over, packets of 54 and 55 bytes that leave 8 bits of the budget, then a packet of
      `maxLength` bytes; at each of the seconds 1 to k the same again, after a packet of `maxLength` bytes that
      refills. */
  ghost function FullLoad(k: nat, maxLength: nat): seq<Packet>
    requires 55 <= maxLength < 0x1_0000_0000
  {
    if k == 0 then UseUp([], SECOND - 1, maxLength)
    else UseUp(FullLoad(k - 1, maxLength) + [Sized(maxLength, k * SECOND)], k * SECOND, maxLength)
  }

  /** 54 * 23141 + 55 * 7 == 1249999 bytes, and one packet more. */
  ghost function UseUp(trace: seq<Packet>, now: nat, maxLength: nat): seq<Packet>
    requires 55 <= maxLength < 0x1_0000_0000
  {
    trace + Copies(Sized(54, now), 23141) + Copies(Sized(55, now), 7) + [Sized(maxLength, now)]
  }

  lemma PassesNext(trace: seq<Packet>, p: Packet, from: int, to: int)
    requires p.toProxy && from <= p.now < to
    requires MeterStep(MeterRun(trace), p).1 == XdpPass
    ensures MeterRun(trace + [p]) == MeterStep(MeterRun(trace), p).0
    ensures PassedBitsIn(trace + [p], from, to) == PassedBitsIn(trace, from, to) + p.Bits()
  {
    assert Init(trace + [p]) == trace && Last(trace + [p]) == p;
    ElapsedTelescopes(trace);
  }

  lemma OneMorePasses(trace: seq<Packet>, p: Packet, n: nat, from: int, to: int)
    requires n > 0 && p.toProxy && from <= p.now < to
    requires var m := MeterRun(trace + Copies(p, n - 1)); p.now < m.refilled + SECOND && m.budget > 0
    ensures var m := MeterRun(trace + Copies(p, n - 1));
            MeterRun(trace + Copies(p, n)) == Meter(m.refilled, m.budget - p.Bits())
    ensures PassedBitsIn(trace + Copies(p, n), from, to)
         == PassedBitsIn(trace + Copies(p, n - 1), from, to) + p.Bits()
  {
    CopiesGrow(trace, p, n);
    var all := trace + Copies(p, n);
    assert all == Init(all) + [p];
    PassesNext(Init(all), p, from, to);
  }

  /** Equal packets all pass while there is budget left for the last one. */
  lemma {:induction false} CopiesPass(trace: seq<Packet>, p: Packet, n: nat, bits: nat, from: int, to: int)
    requires p.toProxy && p.Bits() == bits && from <= p.now < to && p.now < MeterRun(trace).refilled + SECOND
    requires n > 0 ==> MeterRun(trace).budget > (n - 1) * bits
    ensures var m := MeterRun(trace);
            MeterRun(trace + Copies(p, n)) == Meter(m.refilled, m.budget - n * bits)
    ensures PassedBitsIn(trace + Copies(p, n), from, to) == PassedBitsIn(trace, from, to) + n * bits
  {
    if n == 0 {
      assert trace + Copies(p, 0) == trace;
    } else {
      OneMore(n, bits);
      CopiesPass(trace, p, n - 1, bits, from, to);
      OneMorePasses(trace, p, n, from, to);
    }
  }

  lemma OneMore(n: nat, bits: nat)
    requires n > 0
    ensures n * bits == (n - 1) * bits + bits
    ensures n > 1 ==> (n - 2) * bits <= (n - 1) * bits
  {
  }

  lemma ManyPass(trace: seq<Packet>, now: nat, from: int, to: int)
    requires from <= now < to && now < MeterRun(trace).refilled + SECOND && MeterRun(trace).budget == BITS
    ensures var t := trace + Copies(Sized(54, now), 23141);
            && MeterRun(t) == Meter(MeterRun(trace).refilled, 3088)
            && PassedBitsIn(t, from, to) == PassedBitsIn(trace, from, to) + 9_996_912
  {
    CopiesPass(trace, Sized(54, now), 23141, 432, from, to);
  }

  lemma SevenPass(trace: seq<Packet>, now: nat, from: int, to: int)
    requires from <= now < to && now < MeterRun(trace).refilled + SECOND && MeterRun(trace).budget == 3088
    ensures var t := trace + Copies(Sized(55, now), 7);
            && MeterRun(t) == Meter(MeterRun(trace).refilled, 8)
            && PassedBitsIn(t, from, to) == PassedBitsIn(trace, from, to) + 3080
  {
    CopiesPass(trace, Sized(55, now), 7, 440, from, to);
  }

  /** A full budget is used up to the last 8 bits, and overdrawn by one packet of `maxLength` bytes. */
  lemma UseUpPasses(trace: seq<Packet>, now: nat, maxLength: nat, from: int, to: int)
    requires 55 <= maxLength < 0x1_0000_0000
    requires from <= now < to && now < MeterRun(trace).refilled + SECOND && MeterRun(trace).budget == BITS
    ensures MeterRun(UseUp(trace, now, maxLength)).refilled == MeterRun(trace).refilled
    ensures PassedBitsIn(UseUp(trace, now, maxLength), from, to)
         == PassedBitsIn(trace, from, to) + PerRefill(maxLength)
  {
    var t1 := trace + Copies(Sized(54, now), 23141);
    ManyPass(trace, now, from, to);
    SevenPass(t1, now, from, to);
    PassesNext(t1 + Copies(Sized(55, now), 7), Sized(maxLength, now), from, to);
  }

  /** One more second, if it is the refill's turn: a packet that refills, then a budget's worth. */
  lemma SecondPasses(trace: seq<Packet>, now: nat, maxLength: nat, from: int, to: int)
    requires 55 <= maxLength < 0x1_0000_0000
    requires from <= now < to && now - MeterRun(trace).refilled >= SECOND
    ensures var t := UseUp(trace + [Sized(maxLength, now)], now, maxLength);
            && MeterRun(t).refilled == now
            && PassedBitsIn(t, from, to) == PassedBitsIn(trace, from, to) + PerRefill(maxLength) + 8 * maxLength
  {
    PassesNext(trace, Sized(maxLength, now), from, to);
    UseUpPasses(trace + [Sized(maxLength, now)], now, maxLength, from, to);
  }

  /** What k + 1 refills let through, and k packets that refill. */
  function Allowed(k: nat, refill: nat, extra: nat): nat {
    (k + 1) * refill + k * extra
  }

  lemma AllowedNext(k: nat, refill: nat, extra: nat)
    requires k > 0
    ensures Allowed(k, refill, extra) == Allowed(k - 1, refill, extra) + refill + extra
  {
  }

  lemma {:induction false} FullLoadPasses(k: nat, maxLength: nat, to: int)
    requires 55 <= maxLength < 0x1_0000_0000 && k * SECOND < to && SECOND - 1 < to
    ensures MeterRun(FullLoad(k, maxLength)).refilled == k * SECOND
    ensures PassedBitsIn(FullLoad(k, maxLength), SECOND - 1, to) == Allowed(k, PerRefill(maxLength), 8 * maxLength)
  {
    if k == 0 {
      UseUpPasses([], SECOND - 1, maxLength, SECOND - 1, to);
    } else {
      FullLoadPasses(k - 1, maxLength, to);
      SecondPasses(FullLoad(k - 1, maxLength), k * SECOND, maxLength, SECOND - 1, to);
      AllowedNext(k, PerRefill(maxLength), 8 * maxLength);
    }
  }

  /** A trace whose packets are at most `maxLength` bytes long and arrive in order, by `upTo` at the latest. */
  ghost predicate Fits(trace: seq<Packet>, maxLength: nat, upTo: int) {
    Nondecreasing(trace) && forall i :: 0 <= i < |trace| ==> trace[i].length <= maxLength && trace[i].now <= upTo
  }

  lemma FitsNext(trace: seq<Packet>, p: Packet, n: nat, maxLength: nat, upTo: int)
    requires Fits(trace, maxLength, upTo) && upTo <= p.now && p.length <= maxLength
    ensures Fits(trace + Copies(p, n), maxLength, p.now)
    ensures Fits(trace + [p], maxLength, p.now)
  {
  }

  lemma UseUpFits(trace: seq<Packet>, now: nat, maxLength: nat, upTo: int)
    requires 55 <= maxLength < 0x1_0000_0000 && Fits(trace, maxLength, upTo) && upTo <= now
    ensures Fits(UseUp(trace, now, maxLength), maxLength, now)
  {
    var t1 := trace + Copies(Sized(54, now), 23141);
    FitsNext(trace, Sized(54, now), 23141, maxLength, upTo);
    FitsNext(t1, Sized(55, now), 7, maxLength, now);
    FitsNext(t1 + Copies(Sized(55, now), 7), Sized(maxLength, now), 1, maxLength, now);
  }

  lemma {:induction false} FullLoadFits(k: nat, maxLength: nat)
    requires 55 <= maxLength < 0x1_0000_0000
    ensures Fits(FullLoad(k, maxLength), maxLength, if k == 0 then SECOND - 1 else k * SECOND)
  {
    if k == 0 {
      UseUpFits([], SECOND - 1, maxLength, 0);
    } else {
      FullLoadFits(k - 1, maxLength);
      var upTo := if k == 1 then SECOND - 1 else (k - 1) * SECOND;
      FitsNext(FullLoad(k - 1, maxLength), Sized(maxLength, k * SECOND), 1, maxLength, upTo);
      UseUpFits(FullLoad(k - 1, maxLength) + [Sized(maxLength, k * SECOND)], k * SECOND, maxLength, k * SECOND);
    }
  }

  /** No smaller bound holds, for any limit on packet length above the 54 bytes of the headers and any k >= 1: some
      trace attains it. */
  lemma SlidingBoundIsTight(k: nat, maxLength: nat)
    requires k >= 1 && 55 <= maxLength < 0x1_0000_0000
    ensures var trace := FullLoad(k, maxLength);
            && Nondecreasing(trace)
            && (forall i :: 0 <= i < |trace| ==> trace[i].length <= maxLength)
            && PassedBitsIn(trace, SECOND - 1, SECOND - 1 + k * SECOND)
               == (k + 1) * PerRefill(maxLength) + k * (8 * maxLength)
  {
    FullLoadFits(k, maxLength);
    FullLoadPasses(k, maxLength, SECOND - 1 + k * SECOND);
  }
}
