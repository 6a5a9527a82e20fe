/** Accepting clients, and the interleaving of their handler threads (Source/ReverseProxy.cpp). */
module ReverseProxy {
  import BlockIP
  import SockLimiting
  import IPTools
  import IpBlock
  import opened Relay
  import opened Sequences

  /** The answer of the address check. Only MALICIOUS is turned away: ERROR is admitted like OK. */
  datatype Check = CheckOk | CheckMalicious | CheckError

  /** What the threads share: the admission counts, `m_clients`, `m_numOfClient`, and the process's open sockets. */
  datatype Shared = Shared(limiter: SockLimiting.State, clients: map<int, int>, numOfClient: int, open: set<int>)

  const START := Shared(SockLimiting.START, map[], 0, {})

  function OpenStep(s: Shared, socket: int): Shared {
    s.(open := s.open + {socket})
  }

  /** What the accept loop decides about a client it has accepted. A malicious client's socket stays open, and nobody
      serves it. */
  function DecideStep(s: Shared, socket: int, ip: string, check: Check): (Shared, bool) {
    if check == CheckMalicious then (s, false)
    else
      var (limiter, added) := SockLimiting.AddStep(s.limiter, ip);
      if added then (s.(limiter := limiter), true)
      else (s.(limiter := limiter, open := s.open - {socket}), false)
  }

  /** `m_clients.insert({ client_socket, m_numOfClient++ })`: the number goes up even if the key is present. */
  function InsertStep(s: Shared, socket: int): Shared {
    s.(clients := if socket in s.clients then s.clients else s.clients[socket := s.numOfClient],
       numOfClient := s.numOfClient + 1)
  }

  /** One locked clean-up block. `ip` is whatever the socket's address lookup left in the buffer. */
  function CleanupStep(s: Shared, socket: int, ip: string): Shared {
    s.(limiter := SockLimiting.RemoveStep(s.limiter, ip), clients := s.clients - {socket}, open := s.open - {socket})
  }

  class ReverseProxy {
    const limiter: SockLimiting.SockLimiter
    const blocker: BlockIP.Blocker
    var clients: map<int, int>
    var numOfClient: int
    var open: set<int>
    var serverStream: seq<Bytes>

    ghost function View(): Shared
      reads this, limiter
    {
      Shared(limiter.View(), clients, numOfClient, open)
    }

    constructor ()
      ensures View() == START && serverStream == []
      ensures fresh(limiter) && fresh(blocker)
    {
      limiter := new SockLimiting.SockLimiter();
      blocker := new BlockIP.Blocker();
      clients, numOfClient, open, serverStream := map[], 0, {}, [];
    }

    method Accept(clientSocket: int, ipAddress: string, check: Check, answers: BlockIP.Answers)
      returns (admitted: bool)
      requires SockLimiting.WithinLimit(limiter.View()) && clientSocket !in open
      modifies this`open, limiter, blocker
      ensures (View(), admitted) == DecideStep(OpenStep(old(View()), clientSocket), clientSocket, ipAddress, check)
      ensures SockLimiting.WithinLimit(limiter.View())
      ensures blocker.View() ==
                if check == CheckMalicious then
                  BlockIP.Step(old(blocker.View()),
                               BlockIP.Block(IpBlock.Address(IPTools.KeyOf(ipAddress)), answers)).0
                else old(blocker.View())
    {
      open := open + {clientSocket};
      admitted := false;
      if check == CheckMalicious {
        var done := blocker.BlockIP(ipAddress, answers);
      } else {
        var added := limiter.Add(ipAddress);
        if !added {
          open := open - {clientSocket};
        } else {
          admitted := true;
        }
      }
    }

    method Insert(clientSocket: int)
      modifies this`clients, this`numOfClient
      ensures View() == InsertStep(old(View()), clientSocket)
    {
      if clientSocket !in clients {
        clients := clients[clientSocket := numOfClient];
      }
      numOfClient := numOfClient + 1;
    }

    method Cleanup(clientSocket: int, ipAddress: string)
      modifies this`clients, this`open, limiter
      ensures View() == CleanupStep(old(View()), clientSocket, ipAddress)
    {
      limiter.Remove(ipAddress);
      clients := clients - {clientSocket};
      open := open - {clientSocket};
    }

    /** `sent` is whether send succeeds; a failure throws. */
    method ForwardToServer(message: Bytes, sent: bool) returns (threw: bool)
      modifies this`serverStream
      ensures threw == !sent
      ensures serverStream == if sent then old(serverStream) + [message] else old(serverStream)
    {
      if sent {
        serverStream := serverStream + [message];
      }
      threw := !sent;
    }

    /** One handler run without interruption, on given results of recv and send and given outcomes of the address
        lookups in the two clean-ups. It stops early, still running, if the results run out. */
    method HandleNewClient(clientSocket: int, recvs: seq<RecvResult>, sends: seq<bool>, firstIp: string, lastIp: string)
      returns (exit: Exit, ghost inputs: seq<Input>)
      modifies this, limiter
      ensures RecvsOf(inputs) <= recvs && SendsOf(inputs) <= sends
      ensures exit == RunFrom(FRESH, inputs).exit
      ensures serverStream == old(serverStream) + RunFrom(FRESH, inputs).sent
      ensures InTurn(inputs)
      ensures exit == NotYet ==>
                var place := RunFrom(FRESH, inputs).place;
                || (place == Receiving && RecvsOf(inputs) == recvs)
                || (place == Sending && SendsOf(inputs) == sends)
      ensures View() == match exit
                        case NotYet => old(View())
                        case TimeLimit =>
                          CleanupStep(CleanupStep(old(View()), clientSocket, firstIp), clientSocket, lastIp)
                        case _ => CleanupStep(old(View()), clientSocket, lastIp)
    {
      var nextRecv, nextSend := 0, 0;
      ghost var base := serverStream;
      inputs := [];
      exit := NotYet;
      while exit == NotYet
        invariant AtLoop(inputs, recvs, nextRecv, sends, nextSend, exit, base, serverStream)
        invariant View() == old(View())
        decreases |recvs| - nextRecv, exit == NotYet
      {
        var outcome, consumed := ReceiveStringFromSocket(recvs[nextRecv..], RunFrom(FRESH, inputs));
        inputs := AfterReceive(inputs, recvs, nextRecv, sends, nextSend, base, serverStream, consumed, outcome);
        nextRecv := nextRecv + consumed;
        match outcome {
          case Blocked =>
            return;
          case ThrewTimeout =>
            Cleanup(clientSocket, firstIp);
            Cleanup(clientSocket, lastIp);
            exit := TimeLimit;
            return;
          case Message(m) =>
            if m == [] {
              exit := ClientLeft;
            } else if nextSend == |sends| {
              return;
            } else {
              inputs := AfterSend(inputs, recvs, nextRecv, sends, nextSend, base, serverStream);
              var threw := ForwardToServer(m, sends[nextSend]);
              nextSend := nextSend + 1;
              if threw {
                exit := SendFailed;
              }
            }
        }
      }
      Cleanup(clientSocket, lastIp);
    }
  }

  ghost function RecvsOf(inputs: seq<Input>): seq<RecvResult> {
    if inputs == [] then []
    else
      var last := Last(inputs);
      RecvsOf(Init(inputs)) + (if last.RecvInput? then [last.result] else [])
  }

  ghost function SendsOf(inputs: seq<Input>): seq<bool> {
    if inputs == [] then []
    else
      var last := Last(inputs);
      SendsOf(Init(inputs)) + (if last.SendInput? then [last.ok] else [])
  }

  /** The inputs are the first n results of recv and the first m of send, each in its turn. */
  ghost predicate Consumed(inputs: seq<Input>, recvs: seq<RecvResult>, n: nat, sends: seq<bool>, m: nat) {
    && n <= |recvs| && m <= |sends| && InTurn(inputs)
    && RecvsOf(inputs) == recvs[..n] && SendsOf(inputs) == sends[..m]
  }

  /** What a handler that had these inputs has come to: how it ended, if it did, and what it added to the stream. */
  ghost predicate Progress(
    inputs: seq<Input>, recvs: seq<RecvResult>, n: nat, sends: seq<bool>, m: nat, exit: Exit,
    base: seq<Bytes>, stream: seq<Bytes>)
  {
    && Consumed(inputs, recvs, n, sends, m)
    && exit == RunFrom(FRESH, inputs).exit && stream == base + RunFrom(FRESH, inputs).sent
  }

  /** At the top of the loop: ready for a receive call, or out of it otherwise than by the time limit. */
  ghost predicate AtLoop(
    inputs: seq<Input>, recvs: seq<RecvResult>, n: nat, sends: seq<bool>, m: nat, exit: Exit,
    base: seq<Bytes>, stream: seq<Bytes>)
  {
    var h := RunFrom(FRESH, inputs);
    && Progress(inputs, recvs, n, sends, m, exit, base, stream)
    && exit != TimeLimit && (exit == NotYet ==> h.place == Receiving && h.result == [] && h.lastPacketTime == 0)
  }

  lemma {:induction false} RecvsOfAppend(inputs: seq<Input>, results: seq<RecvResult>)
    ensures RecvsOf(inputs + RecvInputs(results)) == RecvsOf(inputs) + results
    ensures SendsOf(inputs + RecvInputs(results)) == SendsOf(inputs)
  {
    var all := inputs + RecvInputs(results);
    if results == [] {
      assert all == inputs;
    } else {
      var n := |results| - 1;
      RecvsOfAppend(inputs, results[..n]);
      assert Init(all) == inputs + RecvInputs(results[..n]);
      assert results == results[..n] + [results[n]];
    }
  }

  lemma ConsumedSend(inputs: seq<Input>, recvs: seq<RecvResult>, n: nat, sends: seq<bool>, m: nat)
    requires Consumed(inputs, recvs, n, sends, m) && m < |sends| && RunFrom(FRESH, inputs).place == Sending
    ensures Consumed(inputs + [SendInput(sends[m])], recvs, n, sends, m + 1)
  {
    assert Init(inputs + [SendInput(sends[m])]) == inputs;
    assert sends[..m + 1] == sends[..m] + [sends[m]];
  }

  lemma AfterSend(
    inputs: seq<Input>, recvs: seq<RecvResult>, n: nat, sends: seq<bool>, m: nat,
    base: seq<Bytes>, stream: seq<Bytes>) returns (all: seq<Input>)
    requires Progress(inputs, recvs, n, sends, m, NotYet, base, stream) && m < |sends|
    requires RunFrom(FRESH, inputs).place == Sending
    ensures AtLoop(all, recvs, n, sends, m + 1, if sends[m] then NotYet else SendFailed,
                   base, if sends[m] then stream + [RunFrom(FRESH, inputs).result] else stream)
  {
    all := inputs + [SendInput(sends[m])];
    ConsumedSend(inputs, recvs, n, sends, m);
    RunNext(FRESH, inputs, SendInput(sends[m]));
  }

  lemma {:induction false} RecvsSendNothing(h: Handler, results: seq<RecvResult>)
    ensures RunFrom(h, RecvInputs(results)).sent == h.sent
    ensures h.exit == NotYet && h.place == Receiving ==>
              var h1 := RunFrom(h, RecvInputs(results));
              && (h1.place in {Receiving, Sending} ==> h1.exit == NotYet)
              && (h1.place == TimedOut ==> h1.exit == TimeLimit)
              && (h1.place == Catching ==> h1.exit == ClientLeft)
  {
    if results != [] {
      var n := |results| - 1;
      RecvsSendNothing(h, results[..n]);
      assert RecvInputs(results) == RecvInputs(results[..n]) + [RecvInput(results[n])];
      RunNext(h, RecvInputs(results[..n]), RecvInput(results[n]));
    }
  }

  /** While recv fills the buffer the handler goes on listening, so each result comes in its turn. */
  lemma {:induction false} FullBuffersInTurn(inputs: seq<Input>, results: seq<RecvResult>)
    requires InTurn(inputs) && RunFrom(FRESH, inputs).place == Receiving
    requires forall i :: 0 <= i < |results| - 1 ==> FullBuffer(results[i])
    ensures InTurn(inputs + RecvInputs(results))
    ensures (forall i :: 0 <= i < |results| ==> FullBuffer(results[i])) ==>
              RunFrom(FRESH, inputs + RecvInputs(results)).place == Receiving
  {
    var all := inputs + RecvInputs(results);
    if results == [] {
      assert all == inputs;
    } else {
      var n := |results| - 1;
      FullBuffersInTurn(inputs, results[..n]);
      assert all == inputs + RecvInputs(results[..n]) + [RecvInput(results[n])];
      RunNext(FRESH, inputs + RecvInputs(results[..n]), RecvInput(results[n]));
      assert Init(all) == inputs + RecvInputs(results[..n]) && Last(all) == RecvInput(results[n]);
    }
  }

  lemma AfterReceive(
    inputs: seq<Input>, recvs: seq<RecvResult>, n: nat, sends: seq<bool>, m: nat,
    base: seq<Bytes>, stream: seq<Bytes>, consumed: nat, outcome: Outcome) returns (all: seq<Input>)
    requires AtLoop(inputs, recvs, n, sends, m, NotYet, base, stream) && n + consumed <= |recvs|
    requires forall i :: 0 <= i < consumed - 1 ==> FullBuffer(recvs[n..][i])
    requires LeftLoop(RunFrom(RunFrom(FRESH, inputs), RecvInputs(recvs[n..][..consumed])), outcome)
    ensures var k := n + consumed;
            match outcome
            case Blocked =>
              Progress(all, recvs, k, sends, m, NotYet, base, stream) && RunFrom(FRESH, all).place == Receiving
            case ThrewTimeout => Progress(all, recvs, k, sends, m, TimeLimit, base, stream)
            case Message(text) =>
              if text == [] then AtLoop(all, recvs, k, sends, m, ClientLeft, base, stream)
              else
                && Progress(all, recvs, k, sends, m, NotYet, base, stream)
                && RunFrom(FRESH, all).place == Sending && RunFrom(FRESH, all).result == text
  {
    var results := recvs[n..][..consumed];
    all := inputs + RecvInputs(results);
    RunAppend(FRESH, inputs, RecvInputs(results));
    RecvsOfAppend(inputs, results);
    RecvsSendNothing(RunFrom(FRESH, inputs), results);
    FullBuffersInTurn(inputs, results);
    assert recvs[..n] + results == recvs[..n + consumed];
  }

  // ------------------------------------------------------------------------------------------
  // All threads together
  // ------------------------------------------------------------------------------------------

  /** A handler thread: its socket, and what it has reacted to so far. */
  datatype Thread = Thread(socket: int, inputs: seq<Input>) {
    function State(): Handler {
      RunFrom(FRESH, inputs)
    }
  }

  /** The accept loop: waiting for a client, with one accepted but not decided on, or with one counted but not yet
      registered. No lock is held in between, and the address check takes its time. */
  datatype Acceptor = Waiting | Accepted(socket: int) | Counted(socket: int)

  /** `log` is what the shared server socket was handed, with the number of the thread that did. */
  datatype System = System(shared: Shared, acceptor: Acceptor, threads: seq<Thread>, log: seq<(nat, Bytes)>)

  const INITIAL := System(START, Waiting, [], [])

  /** The atomic steps. A step that is not possible in a state leaves it alone. */
  datatype Move =
    | AcceptMove(socket: int)
    | DecideMove(ip: string, check: Check)
    | InsertMove
    | InputMove(thread: nat, input: Input)
    | CleanupMove(thread: nat, ip: string)

  predicate Possible(s: System, m: Move) {
    match m
    case AcceptMove(socket) => s.acceptor.Waiting? && socket !in s.shared.open
    case DecideMove(_, _) => s.acceptor.Accepted?
    case InsertMove => s.acceptor.Counted?
    case InputMove(t, input) =>
      t < |s.threads| && !input.CleanupInput? && Awaits(s.threads[t].State().place, input)
    case CleanupMove(t, _) => t < |s.threads| && Awaits(s.threads[t].State().place, CleanupInput)
  }

  lemma ThreadReacts(t: Thread, input: Input)
    ensures Thread(t.socket, t.inputs + [input]).State() == React(t.State(), input)
  {
    RunNext(FRESH, t.inputs, input);
  }

  function WithInput(s: System, t: nat, input: Input): seq<Thread>
    requires t < |s.threads|
  {
    s.threads[t := Thread(s.threads[t].socket, s.threads[t].inputs + [input])]
  }

  function Apply(s: System, m: Move): System {
    if !Possible(s, m) then s
    else
      match m
      case AcceptMove(socket) =>
        s.(shared := OpenStep(s.shared, socket), acceptor := Accepted(socket))
      case DecideMove(ip, check) =>
        var (shared, admitted) := DecideStep(s.shared, s.acceptor.socket, ip, check);
        s.(shared := shared, acceptor := if admitted then Counted(s.acceptor.socket) else Waiting)
      case InsertMove =>
        System(InsertStep(s.shared, s.acceptor.socket), Waiting, s.threads + [Thread(s.acceptor.socket, [])], s.log)
      case InputMove(t, input) =>
        s.(threads := WithInput(s, t, input),
           log := if input == SendInput(true) then s.log + [(t, s.threads[t].State().result)] else s.log)
      case CleanupMove(t, ip) =>
        s.(shared := CleanupStep(s.shared, s.threads[t].socket, ip), threads := WithInput(s, t, CleanupInput))
  }

  ghost function Run(moves: seq<Move>): System {
    if moves == [] then INITIAL else Apply(Run(Init(moves)), Last(moves))
  }

  lemma RunMove(moves: seq<Move>, m: Move)
    ensures Run(moves + [m]) == Apply(Run(moves), m)
  {
    assert Init(moves + [m]) == moves;
  }

  /** Registered ids are thread numbers, each thread registered only under its own socket and only until its last
      clean-up; every admission ever made is counted, in the total and in the number of threads. */
  ghost predicate AdmissionInvariant(s: System) {
    && s.shared.numOfClient == |s.threads|
    && s.shared.limiter.count == |s.threads| + (if s.acceptor.Counted? then 1 else 0) <= SockLimiting.MAX_SOCK
    && |s.shared.clients| <= |s.threads|
    && forall socket :: socket in s.shared.clients ==> Owns(s.threads, s.shared.clients[socket], socket)
  }

  /** The thread with this number is not through with this socket. */
  ghost predicate Owns(threads: seq<Thread>, id: int, socket: int) {
    0 <= id < |threads| && threads[id].socket == socket && threads[id].State().place != Gone
  }

  lemma AdmissionAfterInsert(s: System)
    requires AdmissionInvariant(s) && s.acceptor.Counted?
    ensures AdmissionInvariant(Apply(s, InsertMove))
  {
    var s1 := Apply(s, InsertMove);
    assert s1.shared.clients.Keys == s.shared.clients.Keys + {s.acceptor.socket};
    assert s1.threads[|s.threads|].State() == FRESH;
    assert forall t: nat :: t < |s.threads| ==> s1.threads[t] == s.threads[t];
  }

  lemma InputKeepsServing(h: Handler, input: Input)
    requires !input.CleanupInput? && Awaits(h.place, input)
    ensures React(h, input).place != Gone
  {
  }

  lemma AdmissionAfterInput(s: System, t: nat, input: Input)
    requires AdmissionInvariant(s) && Possible(s, InputMove(t, input))
    ensures AdmissionInvariant(Apply(s, InputMove(t, input)))
  {
    var s1 := Apply(s, InputMove(t, input));
    ThreadReacts(s.threads[t], input);
    InputKeepsServing(s.threads[t].State(), input);
    forall socket | socket in s1.shared.clients ensures Owns(s1.threads, s1.shared.clients[socket], socket) {
      assert Owns(s.threads, s.shared.clients[socket], socket);
    }
  }

  lemma AdmissionAfterCleanup(s: System, t: nat, ip: string)
    requires AdmissionInvariant(s) && Possible(s, CleanupMove(t, ip))
    ensures AdmissionInvariant(Apply(s, CleanupMove(t, ip)))
  {
    var s1, socket := Apply(s, CleanupMove(t, ip)), s.threads[t].socket;
    assert s1.shared.clients.Keys == s.shared.clients.Keys - {socket};
    assert forall u: nat :: u < |s.threads| && u != t ==> s1.threads[u] == s.threads[u];
  }

  lemma AdmissionStep(s: System, m: Move)
    requires AdmissionInvariant(s)
    ensures AdmissionInvariant(Apply(s, m))
  {
    if Possible(s, m) {
      match m {
        case AcceptMove(_) =>
        case DecideMove(_, _) =>
        case InsertMove => AdmissionAfterInsert(s);
        case InputMove(t, input) => AdmissionAfterInput(s, t, input);
        case CleanupMove(t, ip) => AdmissionAfterCleanup(s, t, ip);
      }
    }
  }

  /** Whatever the interleaving, repeated clean-ups and reused sockets included: registered ids are pairwise
      distinct and below m_numOfClient, and |m_clients| <= m_numOfClient <= _count <= 1000, where _count is
      m_numOfClient except between an add and its insertion. */
  lemma {:induction false} AdmissionHolds(moves: seq<Move>)
    ensures AdmissionInvariant(Run(moves))
    ensures var s := Run(moves).shared;
            && (forall a, b :: a in s.clients && b in s.clients && a != b ==> s.clients[a] != s.clients[b])
            && (forall a :: a in s.clients ==> 0 <= s.clients[a] < s.numOfClient)
            && |s.clients| <= s.numOfClient <= s.limiter.count <= 1000
            && (s.limiter.count == s.numOfClient <==> !Run(moves).acceptor.Counted?)
  {
    if moves != [] {
      AdmissionHolds(Init(moves));
      AdmissionStep(Run(Init(moves)), Last(moves));
    }
  }

  // ------------------------------------------------------------------------------------------
  // Who is admitted
  // ------------------------------------------------------------------------------------------

  /** The calls a move makes of the admission counts. */
  ghost function LimiterCalls(s: System, m: Move): seq<SockLimiting.Op> {
    if !Possible(s, m) then []
    else
      match m
      case DecideMove(ip, check) => if check == CheckMalicious then [] else [SockLimiting.Add(ip)]
      case CleanupMove(_, ip) => [SockLimiting.Remove(ip)]
      case _ => []
  }

  ghost function LimiterOps(moves: seq<Move>): seq<SockLimiting.Op> {
    if moves == [] then [] else LimiterOps(Init(moves)) + LimiterCalls(Run(Init(moves)), Last(moves))
  }

  lemma LimiterAfterMove(s: System, m: Move, ops: seq<SockLimiting.Op>)
    requires s.shared.limiter == SockLimiting.Run(ops)
    ensures Apply(s, m).shared.limiter == SockLimiting.Run(ops + LimiterCalls(s, m))
  {
    var calls := LimiterCalls(s, m);
    if calls == [] {
      assert ops + calls == ops;
    } else {
      assert Init(ops + calls) == ops && Last(ops + calls) == calls[0];
    }
  }

  /** The counts that the threads share are those of their calls one after the other, so what `SockLimiting` proves
      over all histories holds of every interleaving. */
  lemma {:induction false} LimiterFollows(moves: seq<Move>)
    ensures Run(moves).shared.limiter == SockLimiting.Run(LimiterOps(moves))
  {
    if moves != [] {
      LimiterFollows(Init(moves));
      LimiterAfterMove(Run(Init(moves)), Last(moves), LimiterOps(Init(moves)));
    }
  }

  /** Who is admitted: everyone the check does not call malicious (a failed check admits too), while fewer than 1000
      clients ever were and fewer than three were counted for the address since it was last cleaned up. Only a
      refusal for want of room closes the socket, which a late clean-up may have closed already. */
  lemma AdmittedWhen(moves: seq<Move>, ip: string, check: Check)
    requires Possible(Run(moves), DecideMove(ip, check))
    ensures var s, s1 := Run(moves), Run(moves + [DecideMove(ip, check)]);
            && (s1.acceptor.Counted? <==>
                  && check != CheckMalicious && |s.threads| < 1000
                  && SockLimiting.AddsSinceRemove(LimiterOps(moves), ip) < 3)
            && (s1.acceptor.Counted? || s1.acceptor.Waiting?)
            && s1.shared.open == (if s1.acceptor.Counted? || check == CheckMalicious then s.shared.open
                                  else s.shared.open - {s.acceptor.socket})
    ensures SockLimiting.Adds(LimiterOps(moves)) == |Run(moves).threads|
  {
    AdmissionHolds(moves);
    LimiterFollows(moves);
    SockLimiting.StateCountsAdds(LimiterOps(moves), ip);
    RunMove(moves, DecideMove(ip, check));
  }

  /** Connections accepted so far. */
  ghost function Accepts(moves: seq<Move>): nat {
    if moves == [] then 0
    else Accepts(Init(moves)) + (if Last(moves).AcceptMove? && Possible(Run(Init(moves)), Last(moves)) then 1 else 0)
  }

  /** A decision against a client: malicious, or 1000 clients before, or three counted for the address. */
  ghost predicate Refuses(moves: seq<Move>, m: Move) {
    && Possible(Run(moves), m) && m.DecideMove?
    && (|| m.check == CheckMalicious || |Run(moves).threads| >= 1000
        || SockLimiting.AddsSinceRemove(LimiterOps(moves), m.ip) >= 3)
  }

  ghost function Refusals(moves: seq<Move>): nat {
    if moves == [] then 0 else Refusals(Init(moves)) + (if Refuses(Init(moves), Last(moves)) then 1 else 0)
  }

  lemma RefusedWhen(moves: seq<Move>, m: Move)
    ensures Possible(Run(moves), m) && m.DecideMove? ==>
              Apply(Run(moves), m).acceptor.Waiting? == Refuses(moves, m)
              && (Apply(Run(moves), m).acceptor.Waiting? || Apply(Run(moves), m).acceptor.Counted?)
  {
    if Possible(Run(moves), m) && m.DecideMove? {
      AdmittedWhen(moves, m.ip, m.check);
      RunMove(moves, m);
    }
  }

  /** Nobody is lost and nothing gets stuck: every connection accepted has a handler, or was refused, or is the one in
      the accept loop's hands. */
  lemma {:induction false} EveryClientAccountedFor(moves: seq<Move>)
    ensures Accepts(moves) == |Run(moves).threads| + Refusals(moves) + (if Run(moves).acceptor.Waiting? then 0 else 1)
  {
    if moves != [] {
      var before, m := Init(moves), Last(moves);
      EveryClientAccountedFor(before);
      RefusedWhen(before, m);
    }
  }

  // ------------------------------------------------------------------------------------------
  // Clean-ups
  // ------------------------------------------------------------------------------------------

  /** Every handler's inputs come in their turn, so its whole life is told by its history, whatever the others do: it
      cleans up only after its end, once, or twice after a time-out, and never again. */
  lemma {:induction false} HandlersInTurn(moves: seq<Move>, t: nat)
    requires t < |Run(moves).threads|
    ensures InTurn(Run(moves).threads[t].inputs)
    ensures AsTold(Run(moves).threads[t].State(), Run(moves).threads[t].inputs)
  {
    var s, m := Run(Init(moves)), Last(moves);
    var inputs := Run(moves).threads[t].inputs;
    if t < |s.threads| {
      HandlersInTurn(Init(moves), t);
      assert inputs != s.threads[t].inputs ==> Init(inputs) == s.threads[t].inputs;
    }
    HandlerFromHistory(inputs);
  }

  /** A handler is never kept waiting by the model, and never moves on its own: with a message to receive it takes any
      result of recv, with one to send either result of send, and after its end it cleans up as often as is due. */
  lemma HandlersCanGoOn(moves: seq<Move>, t: nat)
    requires t < |Run(moves).threads|
    ensures var s, inputs := Run(moves), Run(moves).threads[t].inputs;
            && (forall r :: Possible(s, InputMove(t, RecvInput(r))) <==>
                              ExitOf(inputs) == NotYet && !MessageComplete(inputs))
            && (forall ok :: Possible(s, InputMove(t, SendInput(ok))) <==>
                               ExitOf(inputs) == NotYet && MessageComplete(inputs))
            && (forall ip :: Possible(s, CleanupMove(t, ip)) <==> Cleanups(inputs) < CleanupsDue(ExitOf(inputs)))
  {
    HandlersInTurn(moves, t);
  }

  /** A clean-up by a handler of this socket. */
  ghost predicate Cleans(s: System, m: Move, socket: int) {
    Possible(s, m) && m.CleanupMove? && s.threads[m.thread].socket == socket
  }

  ghost predicate CleanedUp(moves: seq<Move>, later: seq<Move>, socket: int) {
    && later != []
    && (CleanedUp(moves, Init(later), socket) || Cleans(Run(moves + Init(later)), Last(later), socket))
  }

  /** The entry of a socket after a move: gone, kept, or new with the highest number so far. */
  lemma EntryAfterMove(s: System, m: Move, socket: int)
    requires AdmissionInvariant(s)
    ensures |Apply(s, m).threads| >= |s.threads|
    ensures var clients, clients1 := s.shared.clients, Apply(s, m).shared.clients;
            && (Cleans(s, m, socket) ==> socket !in clients1)
            && (socket in clients && !Cleans(s, m, socket) ==>
                  socket in clients1 && clients1[socket] == clients[socket])
            && (socket !in clients && socket in clients1 ==> clients1[socket] == |s.threads|)
  {
  }

  lemma {:induction false} EntryFate(moves: seq<Move>, later: seq<Move>, socket: int)
    requires socket in Run(moves).shared.clients
    ensures |Run(moves + later).threads| >= |Run(moves).threads|
    ensures var clients := Run(moves + later).shared.clients;
            if CleanedUp(moves, later, socket) then
              socket in clients ==> clients[socket] >= |Run(moves).threads|
            else socket in clients && clients[socket] == Run(moves).shared.clients[socket]
  {
    if later == [] {
      assert moves + later == moves;
    } else {
      var before := moves + Init(later);
      EntryFate(moves, Init(later), socket);
      AdmissionHolds(before);
      EntryAfterMove(Run(before), Last(later), socket);
      assert Init(moves + later) == before && Last(moves + later) == Last(later);
    }
  }

  /** Over any further moves a client keeps its entry of m_clients if and only if no handler of its socket cleans up,
      its own or another: inserting never overwrites, and a socket registered anew gets a new number. */
  lemma EntriesOnlyCleanedUp(moves: seq<Move>, later: seq<Move>, socket: int)
    requires socket in Run(moves).shared.clients
    ensures var id, clients := Run(moves).shared.clients[socket], Run(moves + later).shared.clients;
            socket in clients && clients[socket] == id <==> !CleanedUp(moves, later, socket)
  {
    EntryFate(moves, later, socket);
    AdmissionHolds(moves);
  }

  /** The second clean-up of the time-limit path looks the address up on a closed socket, so its text may differ.
      If nothing happened in between, all it can do is erase the count of that other address. */
  lemma CleanupTwice(s: Shared, socket: int, ip1: string, ip2: string)
    ensures var s1 := CleanupStep(s, socket, ip1);
            var s2 := CleanupStep(s1, socket, ip2);
            && (s2 == s1 <==> ip2 == ip1 || ip2 !in s.limiter.perSock)
            && s2 == s1.(limiter := SockLimiting.RemoveStep(s1.limiter, ip2))
  {
    var s1 := CleanupStep(s, socket, ip1);
    assert s1.clients - {socket} == s1.clients && s1.open - {socket} == s1.open;
    assert ip2 in s1.limiter.perSock <==> ip2 in s.limiter.perSock && ip2 != ip1;
    assert ip2 !in s1.limiter.perSock ==> s1.limiter.perSock - {ip2} == s1.limiter.perSock;
  }

  // ------------------------------------------------------------------------------------------
  // The shared server stream
  // ------------------------------------------------------------------------------------------

  /** The messages of one thread, in the order the server got them. */
  ghost function Project(log: seq<(nat, Bytes)>, t: nat): seq<Bytes> {
    if log == [] then []
    else
      var last := Last(log);
      Project(Init(log), t) + (if last.0 == t then [last.1] else [])
  }

  lemma ProjectNext(log: seq<(nat, Bytes)>, entry: (nat, Bytes), t: nat)
    ensures Project(log + [entry], t) == Project(log, t) + (if entry.0 == t then [entry.1] else [])
  {
    assert Init(log + [entry]) == log;
  }

  /** Nothing invented, nothing duplicated, nothing reordered: each thread's share of the stream is exactly what
      that thread sent, and every entry is some thread's. */
  ghost predicate StreamInvariant(s: System) {
    && (forall t: nat :: t < |s.threads| ==> Project(s.log, t) == s.threads[t].State().sent)
    && (forall t: nat :: t >= |s.threads| ==> Project(s.log, t) == [])
  }

  lemma StreamAfterInput(s: System, t: nat, input: Input)
    requires StreamInvariant(s) && Possible(s, InputMove(t, input))
    ensures StreamInvariant(Apply(s, InputMove(t, input)))
  {
    var s1, h := Apply(s, InputMove(t, input)), s.threads[t].State();
    ThreadReacts(s.threads[t], input);
    assert s1.threads[t].State().sent == if input == SendInput(true) then h.sent + [h.result] else h.sent;
    forall u: nat ensures Project(s1.log, u) == if u < |s1.threads| then s1.threads[u].State().sent else [] {
      ProjectNext(s.log, (t, h.result), u);
      assert u != t && u < |s.threads| ==> s1.threads[u] == s.threads[u];
    }
  }

  lemma StreamAfterCleanup(s: System, t: nat, ip: string)
    requires StreamInvariant(s) && Possible(s, CleanupMove(t, ip))
    ensures StreamInvariant(Apply(s, CleanupMove(t, ip)))
  {
    var s1 := Apply(s, CleanupMove(t, ip));
    ThreadReacts(s.threads[t], CleanupInput);
    assert s1.threads[t].State().sent == s.threads[t].State().sent;
    assert forall u: nat :: u < |s.threads| && u != t ==> s1.threads[u] == s.threads[u];
  }

  lemma StreamStep(s: System, m: Move)
    requires StreamInvariant(s)
    ensures StreamInvariant(Apply(s, m))
  {
    if Possible(s, m) {
      match m {
        case AcceptMove(_) =>
        case DecideMove(_, _) =>
        case InsertMove =>
          assert Apply(s, m).threads[|s.threads|].State() == FRESH;
        case InputMove(t, input) => StreamAfterInput(s, t, input);
        case CleanupMove(t, ip) => StreamAfterCleanup(s, t, ip);
      }
    }
  }

  lemma {:induction false} StreamHolds(moves: seq<Move>)
    ensures StreamInvariant(Run(moves))
  {
    if moves != [] {
      StreamHolds(Init(moves));
      StreamStep(Run(Init(moves)), Last(moves));
    }
  }

  /** Under any interleaving: what the server stream holds of one handler is a prefix of the bytes that recv delivered
      to that handler, and short of them only by the message in hand. Whether those are its own client's bytes is the
      subject of module Connections. */
  lemma ServerSeesPrefix(moves: seq<Move>, t: nat)
    requires t < |Run(moves).threads|
    ensures var thread, share := Run(moves).threads[t], Flatten(Project(Run(moves).log, t));
            && share <= Delivered(FRESH, thread.inputs)
            && share + thread.State().result == Delivered(FRESH, thread.inputs)
  {
    StreamHolds(moves);
    var inputs := Run(moves).threads[t].inputs;
    SentIsPrefixOfReceived(inputs);
    RunIsFaithful(inputs);
    ReceivedIsDelivered(inputs);
  }

  // ------------------------------------------------------------------------------------------
  // Who is registered
  // ------------------------------------------------------------------------------------------

  ghost predicate Serving(t: Thread) {
    t.State().place in {Receiving, Sending}
  }

  /** Every client being served is registered under its own thread's number, and has its socket open. */
  ghost predicate AllRegistered(s: System) {
    forall t: nat :: t < |s.threads| && Serving(s.threads[t]) ==>
                       var socket := s.threads[t].socket;
                       && socket in s.shared.clients && s.shared.clients[socket] == t
                       && socket in s.shared.open
  }

  /** Registered sockets are open, and the acceptor's is not registered. */
  ghost predicate Tidy(s: System) {
    && (forall socket :: socket in s.shared.clients ==> socket in s.shared.open)
    && (s.acceptor.Waiting? || s.acceptor.socket !in s.shared.clients)
  }

  /** The steps that do harm: cleaning up a socket on which another client is being served, and inserting a client
      whose socket has been closed meanwhile. */
  ghost predicate Harmful(s: System, m: Move) {
    && Possible(s, m)
    && match m
       case CleanupMove(t, _) => SharedSocket(s, s.threads[t].socket)
       case InsertMove => s.acceptor.socket !in s.shared.open
       case _ => false
  }

  ghost predicate SharedSocket(s: System, socket: int) {
    exists u: nat :: u < |s.threads| && Serving(s.threads[u]) && s.threads[u].socket == socket
  }

  lemma InsertHarm(s: System)
    requires AdmissionInvariant(s) && AllRegistered(s) && Tidy(s) && s.acceptor.Counted?
    ensures AllRegistered(Apply(s, InsertMove)) <==> !Harmful(s, InsertMove)
  {
    var s1, n, socket := Apply(s, InsertMove), |s.threads|, s.acceptor.socket;
    assert s1.threads[n] == Thread(socket, []) && s1.threads[n].State() == FRESH && Serving(s1.threads[n]);
    assert forall u: nat :: u < n ==> s1.threads[u] == s.threads[u];
  }

  lemma CleanupHarm(s: System, t: nat, ip: string)
    requires AllRegistered(s) && Possible(s, CleanupMove(t, ip))
    ensures AllRegistered(Apply(s, CleanupMove(t, ip))) <==> !Harmful(s, CleanupMove(t, ip))
  {
    var s1, socket := Apply(s, CleanupMove(t, ip)), s.threads[t].socket;
    ThreadReacts(s.threads[t], CleanupInput);
    assert !Serving(s.threads[t]) && !Serving(s1.threads[t]);
    assert forall u: nat :: u < |s.threads| && u != t ==> s1.threads[u] == s.threads[u];
    if SharedSocket(s, socket) {
      var u: nat :| u < |s.threads| && Serving(s.threads[u]) && s.threads[u].socket == socket;
      assert Serving(s1.threads[u]) && s1.threads[u].socket == socket;
    }
  }

  lemma InputDoesNoHarm(s: System, t: nat, input: Input)
    requires AllRegistered(s) && Possible(s, InputMove(t, input))
    ensures AllRegistered(Apply(s, InputMove(t, input)))
  {
    var s1 := Apply(s, InputMove(t, input));
    ThreadReacts(s.threads[t], input);
    assert Serving(s.threads[t]) && s1.threads[t].socket == s.threads[t].socket;
    assert forall u: nat :: u < |s.threads| && u != t ==> s1.threads[u] == s.threads[u];
  }

  lemma HarmIsExact(s: System, m: Move)
    requires AdmissionInvariant(s) && AllRegistered(s) && Tidy(s)
    ensures AllRegistered(Apply(s, m)) <==> !Harmful(s, m)
    ensures !Harmful(s, m) ==> Tidy(Apply(s, m))
  {
    if Possible(s, m) {
      match m {
        case AcceptMove(_) =>
        case DecideMove(_, _) =>
        case InsertMove => InsertHarm(s);
        case InputMove(t, input) => InputDoesNoHarm(s, t, input);
        case CleanupMove(t, ip) => CleanupHarm(s, t, ip);
      }
    }
  }

  /** In every state along the run. */
  ghost predicate AlwaysRegistered(moves: seq<Move>) {
    AllRegistered(Run(moves)) && (moves != [] ==> AlwaysRegistered(Init(moves)))
  }

  ghost predicate NeverHarmed(moves: seq<Move>) {
    moves != [] ==>
      NeverHarmed(Init(moves)) && !Harmful(Run(Init(moves)), Last(moves))
  }

  /** All along a run every client being served is registered with its socket open, if and only if the run takes no
      harmful step; and then every registered socket is open, and none is registered before its turn. */
  lemma {:induction false} RegisteredUnlessHarmed(moves: seq<Move>)
    ensures AlwaysRegistered(moves) <==> NeverHarmed(moves)
    ensures NeverHarmed(moves) ==> Tidy(Run(moves))
  {
    if moves != [] {
      RegisteredUnlessHarmed(Init(moves));
      AdmissionHolds(Init(moves));
      if NeverHarmed(Init(moves)) {
        HarmIsExact(Run(Init(moves)), Last(moves));
      }
    }
  }

  const HANG_UP := RecvInput(EndOfStream(1_800_000_000))

  /** A client connects on socket 5, passes the check and gets a handler. */
  ghost function Connect(moves: seq<Move>): seq<Move> {
    moves + [AcceptMove(5)] + [DecideMove("a", CheckOk)] + [InsertMove]
  }

  /** It hangs up; its handler times out and cleans up once. */
  ghost function HangUp(): seq<Move> {
    Connect([]) + [InputMove(0, HANG_UP)] + [CleanupMove(0, "a")]
  }

  /** Its socket is then accepted again before the handler's second clean-up. */
  ghost function EarlyReuse(): seq<Move> {
    Connect(HangUp()) + [CleanupMove(0, "a")]
  }

  /** Or the second clean-up comes while the new client's address is being checked. */
  ghost function LateCleanup(): seq<Move> {
    HangUp() + [AcceptMove(5)] + [CleanupMove(0, "a")] + [DecideMove("a", CheckOk)] + [InsertMove]
  }

  /** Socket 5 is free, and there is room for "a". */
  ghost predicate CanConnect(s: System) {
    && s.acceptor.Waiting? && 5 !in s.shared.open && 5 !in s.shared.clients
    && s.shared.limiter.count < SockLimiting.MAX_SOCK && "a" !in s.shared.limiter.perSock
  }

  ghost function Connected(s: System): System {
    System(Shared(SockLimiting.State(s.shared.limiter.count + 1, s.shared.limiter.perSock["a" := 1]),
                  s.shared.clients[5 := s.shared.numOfClient], s.shared.numOfClient + 1, s.shared.open + {5}),
           Waiting, s.threads + [Thread(5, [])], s.log)
  }

  lemma ConnectSteps(s: System)
    requires CanConnect(s)
    ensures var s1 := Apply(s, AcceptMove(5));
            var s2 := Apply(s1, DecideMove("a", CheckOk));
            && Possible(s, AcceptMove(5)) && s1.acceptor.Accepted? && s2.acceptor.Counted?
            && Apply(s2, InsertMove) == Connected(s)
  {
  }

  lemma RunConnect(moves: seq<Move>, s: System)
    requires Run(moves) == s && CanConnect(s)
    ensures Run(Connect(moves)) == Connected(s)
  {
    var m1 := moves + [AcceptMove(5)];
    ConnectSteps(s);
    RunMove(moves, AcceptMove(5));
    RunMove(m1, DecideMove("a", CheckOk));
    RunMove(m1 + [DecideMove("a", CheckOk)], InsertMove);
  }

  lemma AfterConnect()
    ensures Run(Connect([])) == System(Shared(SockLimiting.State(1, map["a" := 1]), map[5 := 0], 1, {5}), Waiting,
                                       [Thread(5, [])], [])
  {
    RunConnect([], INITIAL);
  }

  lemma TimesOut(s: System)
    requires |s.threads| == 1 && s.threads[0] == Thread(5, [])
    ensures Apply(s, InputMove(0, HANG_UP)) == s.(threads := [Thread(5, [HANG_UP])])
    ensures Thread(5, [HANG_UP]).State().place == TimedOut
  {
    assert [] + [HANG_UP] == [HANG_UP];
    RunNext(FRESH, [], HANG_UP);
  }

  lemma AfterTimeout()
    ensures Run(Connect([]) + [InputMove(0, HANG_UP)])
         == System(Shared(SockLimiting.State(1, map["a" := 1]), map[5 := 0], 1, {5}), Waiting,
                   [Thread(5, [HANG_UP])], [])
    ensures Thread(5, [HANG_UP]).State().place == TimedOut
  {
    AfterConnect();
    TimesOut(Run(Connect([])));
    RunMove(Connect([]), InputMove(0, HANG_UP));
  }

  lemma AfterHangUp()
    ensures Run(HangUp()) == System(Shared(SockLimiting.State(1, map[]), map[], 1, {}), Waiting,
                                    [Thread(5, [HANG_UP] + [CleanupInput])], [])
    ensures Thread(5, [HANG_UP] + [CleanupInput]).State().place == Catching
  {
    AfterTimeout();
    RunMove(Connect([]) + [InputMove(0, HANG_UP)], CleanupMove(0, "a"));
    RunNext(FRESH, [HANG_UP], CleanupInput);
    assert Run(HangUp()).shared.limiter.perSock == map[] && Run(HangUp()).shared.clients == map[];
  }

  lemma AfterReconnect()
    ensures Run(Connect(HangUp()))
         == System(Shared(SockLimiting.State(2, map["a" := 1]), map[5 := 1], 2, {5}), Waiting,
                   [Thread(5, [HANG_UP] + [CleanupInput]), Thread(5, [])], [])
  {
    AfterHangUp();
    RunConnect(HangUp(), Run(HangUp()));
  }

  lemma SecondCleanup(s: System)
    requires s == System(Shared(SockLimiting.State(2, map["a" := 1]), map[5 := 1], 2, {5}), Waiting,
                         [Thread(5, [HANG_UP] + [CleanupInput]), Thread(5, [])], [])
    requires s.threads[0].State().place == Catching
    ensures Apply(s, CleanupMove(0, "a"))
         == System(Shared(SockLimiting.State(2, map[]), map[], 2, {}), Waiting,
                   [Thread(5, [HANG_UP] + [CleanupInput] + [CleanupInput]), Thread(5, [])], [])
  {
    var shared := Apply(s, CleanupMove(0, "a")).shared;
    assert shared.limiter.perSock == map[] && shared.clients == map[] && shared.open == {};
  }

  lemma AfterEarlyReuse()
    ensures Run(EarlyReuse())
         == System(Shared(SockLimiting.State(2, map[]), map[], 2, {}), Waiting,
                   [Thread(5, [HANG_UP] + [CleanupInput] + [CleanupInput]), Thread(5, [])], [])
  {
    var before := Connect(HangUp());
    AfterReconnect();
    AfterHangUp();
    RunMove(before, CleanupMove(0, "a"));
    SecondCleanup(Run(before));
  }

  /** A harmful run: at its end the second client is being served, unregistered, on a socket already closed. */
  lemma EarlyReuseUnregisters()
    ensures var s := Run(EarlyReuse());
            && |s.threads| == 2 && Serving(s.threads[1])
            && s.threads[1].socket !in s.shared.clients && s.threads[1].socket !in s.shared.open
  {
    AfterEarlyReuse();
    assert Thread(5, []).State() == FRESH;
  }

  lemma AfterLateCleanup()
    ensures Run(HangUp() + [AcceptMove(5)] + [CleanupMove(0, "a")])
         == System(Shared(SockLimiting.State(1, map[]), map[], 1, {}), Accepted(5),
                   [Thread(5, [HANG_UP] + [CleanupInput] + [CleanupInput])], [])
  {
    var m6 := HangUp() + [AcceptMove(5)];
    AfterHangUp();
    RunMove(HangUp(), AcceptMove(5));
    RunMove(m6, CleanupMove(0, "a"));
    var s := Run(m6 + [CleanupMove(0, "a")]);
    assert s.shared.limiter.perSock == map[] && s.shared.clients == map[] && s.shared.open == {};
  }

  lemma LateSteps(s: System)
    requires |s.threads| == 1 && s.acceptor == Accepted(5)
    requires s.shared == Shared(SockLimiting.State(1, map[]), map[], 1, {})
    ensures Apply(Apply(s, DecideMove("a", CheckOk)), InsertMove)
         == System(Shared(SockLimiting.State(2, map["a" := 1]), map[5 := 1], 2, {}), Waiting,
                   s.threads + [Thread(5, [])], s.log)
  {
  }

  /** Another: the new client is counted, registered and served on a socket closed before it was counted. */
  lemma LateCleanupCloses()
    ensures var s := Run(LateCleanup());
            && |s.threads| == 2 && Serving(s.threads[1]) && s.threads[1].socket !in s.shared.open
            && s.threads[1].socket in s.shared.clients && s.shared.clients[s.threads[1].socket] == 1
            && s.shared.limiter == SockLimiting.State(2, map["a" := 1])
  {
    var m7 := HangUp() + [AcceptMove(5)] + [CleanupMove(0, "a")];
    AfterLateCleanup();
    RunMove(m7, DecideMove("a", CheckOk));
    RunMove(m7 + [DecideMove("a", CheckOk)], InsertMove);
    LateSteps(Run(m7));
    assert Thread(5, []).State() == FRESH;
  }
}
