/** The block list seen from user space (Source/BlockIP.cpp), and the frames it keeps out. */
module BlockIP {
  import opened Frames
  import opened IPTools
  import opened IpBlock
  import opened Sequences

  lemma JoinedBytes(b0: bv8, b1: bv8, b2: bv8, b3: bv8)
    ensures var x := Join32(b0, b1, b2, b3);
            && x & 0xFF == b0 as bv32 && (x >> 8) & 0xFF == b1 as bv32
            && (x >> 16) & 0xFF == b2 as bv32 && (x >> 24) & 0xFF == b3 as bv32
  {
  }

  /** An address loaded from the wire prints its bytes in wire order. */
  lemma PrintsInWireOrder(b0: bv8, b1: bv8, b2: bv8, b3: bv8)
    ensures IntToIPv4String(Join32(b0, b1, b2, b3))
         == Quad([OctetText(b0 as bv32), OctetText(b1 as bv32), OctetText(b2 as bv32), OctetText(b3 as bv32)])
  {
    JoinedBytes(b0, b1, b2, b3);
    PrintOctets(Join32(b0, b1, b2, b3), b0 as bv32, b1 as bv32, b2 as bv32, b3 as bv32);
  }

  /** The two static variables, and the kernel's side: the pinned map, and whether the filter is attached. */
  datatype State = State(isActive: bool, mapId: int, blockMap: BlockMap, attached: bool)

  const START := State(false, 0, map[], false)

  /** What the outside answers during one call: what the loader returns, and whether the filter is attached after it
      has run (finding the program running already it detaches it, and may still return true); the descriptor
      bpf_obj_get returns (negative on failure); and whether the kernel carries out a map operation that its own rules
      allow. */
  datatype Answers = Answers(loaded: bool, attaches: bool, descriptor: int, granted: bool)

  /** A call, with the key its text stands for. */
  datatype Op = Block(key: Address, answers: Answers) | Unblock(key: Address, granted: bool)

  /** Descriptor 0 is standard input, and no map. */
  predicate IsMap(descriptor: int) {
    descriptor > 0
  }

  /** bpf_map_update_elem with BPF_ANY: replaces an entry, or adds one while there is room. */
  predicate CanUpdate(blockMap: BlockMap, key: Address) {
    key in blockMap || |blockMap| < MAX_ENTRIES
  }

  function Step(s: State, op: Op): (State, bool) {
    match op
    case Block(key, a) =>
      var s1 := if s.isActive then s else s.(isActive := true, attached := a.attaches);
      if !s.isActive && !a.loaded then (s1, false)
      else
        var s2 := s1.(mapId := a.descriptor);
        if IsMap(a.descriptor) && CanUpdate(s.blockMap, key) && a.granted then
          (s2.(blockMap := s.blockMap[key := Entry(key.word, 0xFFFF_FFFF)]), true)
        else (s2, false)
    case Unblock(key, granted) =>
      if IsMap(s.mapId) && key in s.blockMap && granted then (s.(blockMap := s.blockMap - {key}), true)
      else (s, false)
  }

  class Blocker {
    var isActive: bool
    var mapId: int
    var blockMap: BlockMap
    var attached: bool

    ghost function View(): State
      reads this
    {
      State(isActive, mapId, blockMap, attached)
    }

    constructor ()
      ensures View() == START
    {
      isActive, mapId, blockMap, attached := false, 0, map[], false;
    }

    method BlockIP(ip: string, answers: Answers) returns (done: bool)
      modifies this
      ensures (View(), done) == Step(old(View()), Block(Address(KeyOf(ip)), answers))
    {
      var parsed := IPv4StringToInt(ip);
      var ipInt := ReverseIP(parsed);
      if !isActive {
        isActive := true;
        attached := answers.attaches;
        if !answers.loaded {
          return false;
        }
      }
      mapId := answers.descriptor;
      var block := Entry(ipInt, 0xFFFF_FFFF);
      if !(IsMap(mapId) && CanUpdate(blockMap, Address(ipInt)) && answers.granted) {
        return false;
      }
      blockMap := blockMap[Address(ipInt) := block];
      return true;
    }

    method UnblockIP(ip: string, granted: bool) returns (done: bool)
      modifies this
      ensures (View(), done) == Step(old(View()), Unblock(Address(KeyOf(ip)), granted))
    {
      var parsed := IPv4StringToInt(ip);
      var key := Address(ReverseIP(parsed));
      if !(IsMap(mapId) && key in blockMap && granted) {
        return false;
      }
      blockMap := blockMap - {key};
      return true;
    }
  }

  ghost function Run(ops: seq<Op>): State {
    if ops == [] then START else Step(Run(Init(ops)), Last(ops)).0
  }

  lemma RunNext(ops: seq<Op>, op: Op)
    ensures Init(ops + [op]) == ops && Last(ops + [op]) == op
    ensures Run(ops + [op]) == Step(Run(ops), op).0
  {
  }

  // ------------------------------------------------------------------------------------------
  // The reference: told from the calls and the outside answers alone
  // ------------------------------------------------------------------------------------------

  ghost predicate HasBlock(ops: seq<Op>) {
    exists i :: 0 <= i < |ops| && ops[i].Block?
  }

  /** Whether a call gets past the loader, which runs in the first block call only. */
  ghost predicate PastLoader(ops: seq<Op>, a: Answers) {
    HasBlock(ops) || a.loaded
  }

  /** The descriptor the last block call to get past the loader was given; 0 before any. */
  ghost function LastDescriptor(ops: seq<Op>): int {
    if ops == [] then 0
    else if Last(ops).Block? && PastLoader(Init(ops), Last(ops).answers) then Last(ops).answers.descriptor
    else LastDescriptor(Init(ops))
  }

  /** The blocked addresses: the last successful call about an address decides, and at first none is blocked. */
  ghost function BlockedSet(ops: seq<Op>): set<Address>
    decreases |ops|, 1
  {
    if ops == [] then {}
    else if !Succeeds(Init(ops), Last(ops)) then BlockedSet(Init(ops))
    else if Last(ops).Block? then BlockedSet(Init(ops)) + {Last(ops).key}
    else BlockedSet(Init(ops)) - {Last(ops).key}
  }

  /** When a call made after the calls `ops` returns true. */
  ghost predicate Succeeds(ops: seq<Op>, op: Op)
    decreases |ops|, 2
  {
    match op
    case Block(key, a) =>
      && PastLoader(ops, a) && IsMap(a.descriptor) && a.granted
      && (key in BlockedSet(ops) || |BlockedSet(ops)| < MAX_ENTRIES)
    case Unblock(key, granted) => key in BlockedSet(ops) && IsMap(LastDescriptor(ops)) && granted
  }

  /** The load that counts, that of the first block call, left the filter attached. */
  ghost predicate FirstLoadAttached(ops: seq<Op>) {
    exists i :: 0 <= i < |ops| && ops[i].Block? && ops[i].answers.attaches && forall j :: 0 <= j < i ==> ops[j].Unblock?
  }

  lemma LoadIsSettled(ops: seq<Op>, later: seq<Op>)
    requires HasBlock(ops)
    ensures HasBlock(ops + later)
    ensures FirstLoadAttached(ops + later) <==> FirstLoadAttached(ops)
  {
    var all := ops + later;
    var b :| 0 <= b < |ops| && ops[b].Block?;
    assert all[b].Block?;
    if FirstLoadAttached(all) {
      var i :| 0 <= i < |all| && all[i].Block? && all[i].answers.attaches && forall j :: 0 <= j < i ==> all[j].Unblock?;
      assert i <= b;
      assert ops[i] == all[i] && forall j :: 0 <= j < i ==> ops[j] == all[j];
    }
    if FirstLoadAttached(ops) {
      var i :| 0 <= i < |ops| && ops[i].Block? && ops[i].answers.attaches && forall j :: 0 <= j < i ==> ops[j].Unblock?;
      assert all[i] == ops[i] && forall j :: 0 <= j < i ==> all[j] == ops[j];
    }
  }

  lemma FirstBlockLoads(ops: seq<Op>, op: Op)
    requires !HasBlock(ops)
    ensures HasBlock(ops + [op]) <==> op.Block?
    ensures FirstLoadAttached(ops + [op]) <==> op.Block? && op.answers.attaches
  {
    var all := ops + [op];
    assert forall i :: 0 <= i < |ops| ==> all[i] == ops[i] && all[i].Unblock?;
    assert all[|ops|] == op;
  }

  /** The loader runs in the first block call and never again, even when it failed. */
  lemma {:induction false} ActiveAfterFirstBlock(ops: seq<Op>)
    ensures Run(ops).isActive <==> HasBlock(ops)
    ensures Run(ops).attached <==> FirstLoadAttached(ops)
    ensures Run(ops).mapId == LastDescriptor(ops)
  {
    if ops != [] {
      ActiveAfterFirstBlock(Init(ops));
      assert ops == Init(ops) + [Last(ops)];
      if HasBlock(Init(ops)) {
        LoadIsSettled(Init(ops), [Last(ops)]);
      } else {
        FirstBlockLoads(Init(ops), Last(ops));
      }
    }
  }

  lemma ListAfterBlock(m: BlockMap, key: Address)
    requires ExactEntries(m) && |m| <= MAX_ENTRIES && CanUpdate(m, key)
    ensures var m1 := m[key := Entry(key.word, 0xFFFF_FFFF)];
            ExactEntries(m1) && |m1| <= MAX_ENTRIES && m1.Keys == m.Keys + {key}
  {
    var m1 := m[key := Entry(key.word, 0xFFFF_FFFF)];
    assert m1.Keys == m.Keys + {key};
    assert key in m ==> m1.Keys == m.Keys;
    assert |m1| == |m1.Keys| && |m| == |m.Keys|;
  }

  lemma ListAfterUnblock(m: BlockMap, key: Address)
    requires ExactEntries(m) && |m| <= MAX_ENTRIES && key in m
    ensures ExactEntries(m - {key}) && |m - {key}| <= MAX_ENTRIES && (m - {key}).Keys == m.Keys - {key}
  {
    assert (m - {key}).Keys == m.Keys - {key};
    assert |m - {key}| == |(m - {key}).Keys| && |m| == |m.Keys|;
  }

  lemma StepKeepsList(s: State, op: Op)
    requires ExactEntries(s.blockMap) && |s.blockMap| <= MAX_ENTRIES
    ensures ExactEntries(Step(s, op).0.blockMap) && |Step(s, op).0.blockMap| <= MAX_ENTRIES
    ensures Step(s, op).0.blockMap.Keys
         == if !Step(s, op).1 then s.blockMap.Keys
            else if op.Block? then s.blockMap.Keys + {op.key} else s.blockMap.Keys - {op.key}
  {
    if Step(s, op).1 {
      if op.Block? {
        ListAfterBlock(s.blockMap, op.key);
      } else {
        ListAfterUnblock(s.blockMap, op.key);
      }
    }
  }

  lemma SuccessFromHistory(ops: seq<Op>, op: Op)
    requires Run(ops).blockMap.Keys == BlockedSet(ops)
    ensures Step(Run(ops), op).1 <==> Succeeds(ops, op)
  {
    ActiveAfterFirstBlock(ops);
    assert |Run(ops).blockMap| == |Run(ops).blockMap.Keys|;
  }

  /** After any calls: the list holds exactly the blocked addresses, at most 1024, each under its own key. */
  lemma {:induction false} ListIsBlockedSet(ops: seq<Op>)
    ensures ExactEntries(Run(ops).blockMap) && |Run(ops).blockMap| <= 1024
    ensures Run(ops).blockMap.Keys == BlockedSet(ops)
  {
    if ops != [] {
      ListIsBlockedSet(Init(ops));
      SuccessFromHistory(Init(ops), Last(ops));
      StepKeepsList(Run(Init(ops)), Last(ops));
    }
  }

  /** A block call returns true exactly when the loader has been got past, a map is at hand, the kernel plays along,
      and the address is blocked already or fewer than 1024 are. */
  lemma BlockSucceedsWhen(ops: seq<Op>, key: Address, a: Answers)
    ensures Step(Run(ops), Block(key, a)).1
       <==> && ((exists i :: 0 <= i < |ops| && ops[i].Block?) || a.loaded)
            && a.descriptor > 0 && a.granted
            && (key in BlockedSet(ops) || |BlockedSet(ops)| < 1024)
  {
    ListIsBlockedSet(ops);
    SuccessFromHistory(ops, Block(key, a));
  }

  /** An unblock call returns true exactly when the address is blocked, the last block call to ask for the map got it,
      and the kernel plays along. */
  lemma UnblockSucceedsWhen(ops: seq<Op>, key: Address, granted: bool)
    ensures Step(Run(ops), Unblock(key, granted)).1
       <==> key in BlockedSet(ops) && LastDescriptor(ops) > 0 && granted
  {
    ListIsBlockedSet(ops);
    SuccessFromHistory(ops, Unblock(key, granted));
  }

  // ------------------------------------------------------------------------------------------
  // Verdicts
  // ------------------------------------------------------------------------------------------

  /** What happens to a frame on the wire: the filter decides, if it is attached at all. */
  function OnTheWire(s: State, frame: Frame): Verdict {
    if s.attached then Filter(frame, s.blockMap) else XdpPass
  }

  /** The filter's verdict and the verdict on the wire after any calls, told without the program's state. */
  lemma VerdictAfter(ops: seq<Op>, frame: Frame)
    ensures Filter(frame, Run(ops).blockMap) == XdpDrop
       <==> Truncated(frame) || (HasSource(frame) && Source(frame) in BlockedSet(ops))
    ensures OnTheWire(Run(ops), frame) == XdpDrop
       <==> FirstLoadAttached(ops) && (Truncated(frame) || (HasSource(frame) && Source(frame) in BlockedSet(ops)))
  {
    ListIsBlockedSet(ops);
    ActiveAfterFirstBlock(ops);
    FilterIsMembership(frame, Run(ops).blockMap);
  }

  lemma {:induction false} NothingBlockedAtFirst(ops: seq<Op>)
    requires !HasBlock(ops)
    ensures BlockedSet(ops) == {} && !FirstLoadAttached(ops)
  {
    if ops != [] {
      assert forall i :: 0 <= i < |Init(ops)| ==> Init(ops)[i] == ops[i];
      NothingBlockedAtFirst(Init(ops));
      assert Last(ops).Unblock?;
    }
  }

  /** A call that returns false leaves the filter's own verdicts alone. On the wire it changes a frame's verdict in
      exactly one case: it is the first block call, it attaches the filter before it fails, and the frame is one that
      the filter drops whatever the list holds. */
  lemma FailureOnTheWire(ops: seq<Op>, op: Op, frame: Frame)
    requires !Step(Run(ops), op).1
    ensures Filter(frame, Run(ops + [op]).blockMap) == Filter(frame, Run(ops).blockMap)
    ensures OnTheWire(Run(ops + [op]), frame) != OnTheWire(Run(ops), frame)
       <==> && op.Block? && op.answers.attaches && (forall i :: 0 <= i < |ops| ==> ops[i].Unblock?)
            && Truncated(frame)
  {
    RunNext(ops, op);
    ListIsBlockedSet(ops);
    SuccessFromHistory(ops, op);
    assert BlockedSet(ops + [op]) == BlockedSet(ops);
    VerdictAfter(ops, frame);
    VerdictAfter(ops + [op], frame);
    if HasBlock(ops) {
      LoadIsSettled(ops, [op]);
    } else {
      FirstBlockLoads(ops, op);
      NothingBlockedAtFirst(ops);
    }
  }

  /** The case is real: the filter gets attached, the map cannot be opened, the call returns false, and an empty frame
      that passed before is dropped. */
  lemma FailedCallCanAttach(key: Address)
    ensures var op := Block(key, Answers(true, true, -1, true));
            && !Step(Run([]), op).1
            && OnTheWire(Run([]), []) == XdpPass && OnTheWire(Run([op]), []) == XdpDrop
  {
    var op := Block(key, Answers(true, true, -1, true));
    assert [] + [op] == [op];
    RunNext([], op);
  }

  /** No call among `later`, made after `ops`, succeeds in unblocking the address. */
  ghost predicate NeverUnblocked(ops: seq<Op>, later: seq<Op>, address: Address) {
    forall i :: 0 <= i < |later| && later[i].Unblock? && later[i].key == address ==>
                  !Succeeds(ops + later[..i], later[i])
  }

  /** An address stays blocked until a call succeeds in unblocking it. */
  lemma {:induction false} StaysBlocked(ops: seq<Op>, later: seq<Op>, address: Address)
    requires address in BlockedSet(ops) && NeverUnblocked(ops, later, address)
    ensures address in BlockedSet(ops + later)
  {
    if later == [] {
      assert ops + later == ops;
    } else {
      var before, middle := Init(later), ops + Init(later);
      assert forall i :: 0 <= i < |before| ==> before[..i] == later[..i];
      StaysBlocked(ops, before, address);
      RunNext(middle, Last(later));
      assert ops + later == middle + [Last(later)];
    }
  }

  /** End to end: once blocking the printed form of an address has returned true, and until a call succeeds in
      unblocking it, every IPv4 frame from that address is dropped on the wire if and only if the first load attached
      the filter. */
  lemma BlockedAddressIsKeptOut(ops: seq<Op>, source: bv32, a: Answers, later: seq<Op>, frame: Frame)
    requires Step(Run(ops), Block(Address(KeyOf(IntToIPv4String(source))), a)).1
    requires NeverUnblocked(ops + [Block(Address(KeyOf(IntToIPv4String(source))), a)], later, Address(source))
    requires HasSource(frame) && Source(frame) == Address(source)
    ensures var all := ops + [Block(Address(KeyOf(IntToIPv4String(source))), a)];
            OnTheWire(Run(all + later), frame) == XdpDrop <==> FirstLoadAttached(all)
  {
    PrintThenParse(source);
    BlockedKeyIsKeptOut(ops, Address(source), a, later, frame);
  }

  lemma BlockedKeyIsKeptOut(ops: seq<Op>, key: Address, a: Answers, later: seq<Op>, frame: Frame)
    requires Step(Run(ops), Block(key, a)).1 && NeverUnblocked(ops + [Block(key, a)], later, key)
    requires HasSource(frame) && Source(frame) == key
    ensures var all := ops + [Block(key, a)];
            && (OnTheWire(Run(all + later), frame) == XdpDrop <==> FirstLoadAttached(all))
            && HasBlock(all)
  {
    var all := ops + [Block(key, a)];
    RunNext(ops, Block(key, a));
    ListIsBlockedSet(ops);
    SuccessFromHistory(ops, Block(key, a));
    assert all[|ops|].Block?;
    StaysBlocked(all, later, key);
    VerdictAfter(all + later, frame);
    LoadIsSettled(all, later);
  }

  /** The other side is real: after a failed load the next block call returns true, with no filter attached. */
  lemma FailedLoadIsForgotten(key: Address, frame: Frame)
    ensures var first, second := Block(key, Answers(false, false, 3, true)), Block(key, Answers(true, true, 3, true));
            && Step(Run([first]), second).1 && OnTheWire(Run([first] + [second]), frame) == XdpPass
  {
    var first, second := Block(key, Answers(false, false, 3, true)), Block(key, Answers(true, true, 3, true));
    assert [] + [first] == [first];
    RunNext([], first);
    RunNext([first], second);
  }
}
