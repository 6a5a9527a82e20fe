/** One client's handler thread: receiving a message in chunks and handing it to the server
    (Source/ReverseProxy.cpp, receiveStringFromSocket, forwardToServer and the loop of handleNewClient). */
module Relay {
  import opened Sequences

  type Bytes = seq<bv8>

  const BUFFER_SIZE: nat := 1024

  /** Compared with microseconds, so the limit is 1.8 seconds. */
  const MAX_TIME_MS: int := 1_800_000

  type Chunk = b: Bytes | 1 <= |b| <= BUFFER_SIZE witness [0]

  /** What recv can report; the clock, in nanoseconds since its epoch, is read on data and on end of stream. */
  datatype RecvResult = Data(bytes: Chunk, now: nat) | EndOfStream(now: nat) | WouldBlock | RecvError

  /** Where a handler is: in the receive loop, about to send, thrown out of the receive loop by the time limit,
      in the catch block, or gone. */
  datatype Place = Receiving | Sending | TimedOut | Catching | Gone

  /** Why the handler ended. */
  datatype Exit = NotYet | ClientLeft | TimeLimit | SendFailed

  /** `result` is the message being put together. `received` and `sent` record the traffic. */
  datatype Handler = Handler(
    place: Place, exit: Exit, result: Bytes, lastPacketTime: int, received: Bytes, sent: seq<Bytes>)

  const FRESH := Handler(Receiving, NotYet, [], 0, [], [])

  function Microseconds(nanoseconds: int): int {
    if nanoseconds >= 0 then nanoseconds / 1000 else -(-nanoseconds / 1000)
  }

  /** The receive loop is left with what there is: an empty message makes the handler throw. */
  function Leave(h: Handler): Handler {
    if h.result == [] then h.(place := Catching, exit := ClientLeft) else h.(place := Sending)
  }

  /** One recv. Only a full buffer keeps the loop going: the `continue` after EWOULDBLOCK goes through the loop
      condition, which fails, since -1 is not the buffer size. */
  function Receive(h: Handler, r: RecvResult): Handler {
    match r
    case Data(bytes, now) =>
      var h1 := h.(result := h.result + bytes, lastPacketTime := now, received := h.received + bytes);
      if |bytes| == BUFFER_SIZE then h1 else Leave(h1)
    case EndOfStream(now) =>
      if Microseconds(now - h.lastPacketTime) >= MAX_TIME_MS then h.(place := TimedOut, exit := TimeLimit)
      else Leave(h)
    case WouldBlock => Leave(h)
    case RecvError => Leave(h)
  }

  /** One send, all or nothing; then the next message starts from scratch. */
  function Send(h: Handler, ok: bool): Handler {
    if ok then h.(place := Receiving, sent := h.sent + [h.result], result := [], lastPacketTime := 0)
    else h.(place := Catching, exit := SendFailed)
  }

  /** What a handler waits for: recv, send, or its turn at the lock to clean up. */
  datatype Input = RecvInput(result: RecvResult) | SendInput(ok: bool) | CleanupInput

  predicate Awaits(place: Place, input: Input) {
    match input
    case RecvInput(_) => place == Receiving
    case SendInput(_) => place == Sending
    case CleanupInput => place in {TimedOut, Catching}
  }

  /** An input reaches the handler only at the place that waits for it. */
  function React(h: Handler, input: Input): Handler {
    match input
    case RecvInput(r) => if h.place.Receiving? then Receive(h, r) else h
    case SendInput(ok) => if h.place.Sending? then Send(h, ok) else h
    case CleanupInput =>
      if h.place.TimedOut? then h.(place := Catching) else if h.place.Catching? then h.(place := Gone) else h
  }

  function RunFrom(h: Handler, inputs: seq<Input>): Handler {
    if inputs == [] then h else React(RunFrom(h, Init(inputs)), Last(inputs))
  }

  function Flatten(messages: seq<Bytes>): Bytes {
    if messages == [] then [] else Flatten(Init(messages)) + Last(messages)
  }

  lemma FlattenNext(messages: seq<Bytes>, m: Bytes)
    ensures Flatten(messages + [m]) == Flatten(messages) + m
  {
    assert Init(messages + [m]) == messages;
  }

  /** What holds of a handler at every moment. Sent messages and the one in hand make up exactly the bytes received;
      a message is handed over only if it is not empty; the time limit can only catch whole buffers. */
  ghost predicate Faithful(h: Handler) {
    && Flatten(h.sent) + h.result == h.received
    && (forall i :: 0 <= i < |h.sent| ==> h.sent[i] != [])
    && (h.place in {Receiving, TimedOut} ==> |h.result| % 1024 == 0)
    && (h.place == Sending ==> h.result != [])
    && (h.place in {Receiving, Sending} <==> h.exit == NotYet)
    && (h.place == TimedOut ==> h.exit == TimeLimit)
    && (h.exit == ClientLeft ==> h.result == [])
    && (h.exit == TimeLimit ==> |h.result| % 1024 == 0)
    && (h.exit == SendFailed ==> h.result != [])
  }

  lemma ReceiveKeepsFaithful(h: Handler, r: RecvResult)
    requires Faithful(h) && h.place == Receiving
    ensures Faithful(Receive(h, r))
  {
    if r.Data? {
      assert Flatten(h.sent) + (h.result + r.bytes) == h.received + r.bytes;
      WholeBuffers(|h.result|);
    }
  }

  lemma WholeBuffers(n: nat)
    ensures n % 1024 == 0 ==> (n + 1024) % 1024 == 0
  {
  }

  lemma SendKeepsFaithful(h: Handler, ok: bool)
    requires Faithful(h) && h.place == Sending
    ensures Faithful(Send(h, ok))
  {
    if ok {
      FlattenNext(h.sent, h.result);
      assert Flatten(h.sent) + h.result + [] == Flatten(h.sent) + h.result;
    }
  }

  lemma ReactKeepsFaithful(h: Handler, input: Input)
    requires Faithful(h)
    ensures Faithful(React(h, input))
  {
    match input {
      case RecvInput(r) =>
        if h.place.Receiving? {
          ReceiveKeepsFaithful(h, r);
        }
      case SendInput(ok) =>
        if h.place.Sending? {
          SendKeepsFaithful(h, ok);
        }
      case CleanupInput =>
    }
  }

  lemma {:induction false} RunIsFaithful(inputs: seq<Input>)
    ensures Faithful(RunFrom(FRESH, inputs))
  {
    if inputs != [] {
      RunIsFaithful(Init(inputs));
      ReactKeepsFaithful(RunFrom(FRESH, Init(inputs)), Last(inputs));
    }
  }

  /** The bytes recv delivered to a handler while it was listening. */
  ghost function Delivered(h: Handler, inputs: seq<Input>): Bytes {
    if inputs == [] then []
    else
      var before, last := Init(inputs), Last(inputs);
      Delivered(h, before)
      + (if RunFrom(h, before).place.Receiving? && last.RecvInput? && last.result.Data? then last.result.bytes else [])
  }

  lemma {:induction false} ReceivedIsDelivered(inputs: seq<Input>)
    ensures RunFrom(FRESH, inputs).received == Delivered(FRESH, inputs)
  {
    if inputs != [] {
      ReceivedIsDelivered(Init(inputs));
    }
  }

  /** Relay fidelity, on every script: what went to the server is, in order and without gap, a prefix of what recv
      delivered. What is missing at the end is at most the message in hand: nothing if the client left, the one
      message whose send failed, or whole buffers that the time limit discarded. */
  lemma SentIsPrefixOfReceived(inputs: seq<Input>)
    ensures var h := RunFrom(FRESH, inputs);
            && Flatten(h.sent) <= Delivered(FRESH, inputs)
            && (Flatten(h.sent) == Delivered(FRESH, inputs) <==> h.result == [])
            && (h.exit == ClientLeft ==> h.result == [])
            && (h.exit == SendFailed ==> h.result != [])
            && (h.exit == TimeLimit ==> |h.result| % 1024 == 0)
  {
    RunIsFaithful(inputs);
    ReceivedIsDelivered(inputs);
  }

  /** The limit meant as half an hour in milliseconds is compared with microseconds: an end of stream counts as a
      time-out exactly when 1.8 seconds have passed since the last data, or, before any data of the message, since
      the clock's epoch. */
  lemma TimeLimitIsEighteenTenths(h: Handler, now: nat)
    requires h.place == Receiving
    ensures Receive(h, EndOfStream(now)).place == TimedOut <==> now - h.lastPacketTime >= 1_800_000_000
  {
  }

  // ------------------------------------------------------------------------------------------
  // The loops
  // ------------------------------------------------------------------------------------------

  /** How a call of receiveStringFromSocket ends; the script of recv results may also run out, with recv blocked. */
  datatype Outcome = Message(text: Bytes) | ThrewTimeout | Blocked

  function RecvInputs(results: seq<RecvResult>): (inputs: seq<Input>)
    ensures |inputs| == |results| && forall i :: 0 <= i < |inputs| ==> inputs[i] == RecvInput(results[i])
  {
    seq(|results|, i requires 0 <= i < |results| => RecvInput(results[i]))
  }

  lemma RunNext(h: Handler, inputs: seq<Input>, input: Input)
    ensures RunFrom(h, inputs + [input]) == React(RunFrom(h, inputs), input)
  {
    assert Init(inputs + [input]) == inputs;
  }

  lemma {:induction false} RunAppend(h: Handler, a: seq<Input>, b: seq<Input>)
    ensures RunFrom(h, a + b) == RunFrom(RunFrom(h, a), b)
  {
    if b == [] {
      assert a + b == a;
    } else {
      var n := |b| - 1;
      RunAppend(h, a, b[..n]);
      assert Init(a + b) == a + b[..n] && Last(a + b) == b[n];
    }
  }

  /** What a call of the receive loop amounts to for the handler making it. */
  ghost predicate LeftLoop(h: Handler, outcome: Outcome) {
    match outcome
    case Message(text) => text == h.result && h.place == (if text == [] then Catching else Sending)
    case ThrewTimeout => h.place == TimedOut
    case Blocked => h.place == Receiving
  }

  predicate FullBuffer(r: RecvResult) {
    r.Data? && |r.bytes| == BUFFER_SIZE
  }

  /** All data of a script, in order. */
  ghost function DataOf(script: seq<RecvResult>): Bytes {
    if script == [] then []
    else
      var last := Last(script);
      DataOf(Init(script)) + (if last.Data? then last.bytes else [])
  }

  /** When the last data of a script came, the clock's epoch if there was none. */
  ghost function LastDataTime(script: seq<RecvResult>): int {
    if script == [] then 0
    else
      var last := Last(script);
      if last.Data? then last.now else LastDataTime(Init(script))
  }

  /** An end of stream 1.8 seconds or more after the last data. */
  ghost predicate Expires(script: seq<RecvResult>, n: nat)
    requires n < |script|
  {
    script[n].EndOfStream? && script[n].now - LastDataTime(script[..n]) >= 1_800_000_000
  }

  lemma RecvNext(h: Handler, script: seq<RecvResult>, n: nat)
    requires n < |script|
    ensures RunFrom(h, RecvInputs(script[..n + 1])) == React(RunFrom(h, RecvInputs(script[..n])), RecvInput(script[n]))
    ensures DataOf(script[..n + 1]) == DataOf(script[..n]) + (if script[n].Data? then script[n].bytes else [])
    ensures LastDataTime(script[..n + 1]) == if script[n].Data? then script[n].now else LastDataTime(script[..n])
  {
    assert RecvInputs(script[..n + 1]) == RecvInputs(script[..n]) + [RecvInput(script[n])];
    RunNext(h, RecvInputs(script[..n]), RecvInput(script[n]));
    assert script[..n + 1][..n] == script[..n];
  }

  /** The first n results were full buffers, which keep the handler in its loop. */
  ghost predicate InLoop(h: Handler, script: seq<RecvResult>, n: nat, result: Bytes, lastPacketTime: int)
    requires n <= |script|
  {
    var now := RunFrom(h, RecvInputs(script[..n]));
    && now.place == Receiving && now.result == result && now.lastPacketTime == lastPacketTime
    && result == DataOf(script[..n]) && lastPacketTime == LastDataTime(script[..n])
    && forall i :: 0 <= i < n ==> FullBuffer(script[i])
  }

  /** The n-th result ended the loop. */
  ghost predicate Ended(h: Handler, script: seq<RecvResult>, n: nat, outcome: Outcome)
    requires n <= |script|
  {
    && n > 0 && !FullBuffer(script[n - 1]) && (forall i :: 0 <= i < n - 1 ==> FullBuffer(script[i]))
    && LeftLoop(RunFrom(h, RecvInputs(script[..n])), outcome)
    && (outcome.Message? ==> outcome.text == DataOf(script[..n]))
    && (outcome.ThrewTimeout? <==> Expires(script, n - 1))
  }

  lemma LoopTurn(h: Handler, script: seq<RecvResult>, n: nat, result: Bytes, lastPacketTime: int)
    requires n < |script| && InLoop(h, script, n, result, lastPacketTime)
    ensures match script[n]
            case Data(bytes, now) =>
              if |bytes| == BUFFER_SIZE then InLoop(h, script, n + 1, result + bytes, now)
              else Ended(h, script, n + 1, Message(result + bytes))
            case EndOfStream(now) =>
              if Microseconds(now - lastPacketTime) >= MAX_TIME_MS then Ended(h, script, n + 1, ThrewTimeout)
              else Ended(h, script, n + 1, Message(result))
            case _ => Ended(h, script, n + 1, Message(result))
  {
    RecvNext(h, script, n);
  }

  method ReceiveStringFromSocket(script: seq<RecvResult>, ghost h: Handler) returns (outcome: Outcome, consumed: nat)
    requires h.place == Receiving && h.result == [] && h.lastPacketTime == 0
    ensures consumed <= |script|
    ensures LeftLoop(RunFrom(h, RecvInputs(script[..consumed])), outcome)
    ensures outcome.Blocked? ==> consumed == |script| && forall i :: 0 <= i < consumed ==> FullBuffer(script[i])
    ensures !outcome.Blocked? ==> consumed > 0 && !FullBuffer(script[consumed - 1])
                                  && forall i :: 0 <= i < consumed - 1 ==> FullBuffer(script[i])
    ensures outcome.Message? ==> outcome.text == DataOf(script[..consumed])
    ensures !outcome.Blocked? ==> (outcome.ThrewTimeout? <==> Expires(script, consumed - 1))
  {
    var result: Bytes := [];
    var lastPacketTime := 0;
    var more := true;
    consumed := 0;
    while more
      invariant consumed <= |script|
      invariant more ==> InLoop(h, script, consumed, result, lastPacketTime)
      invariant !more ==> Ended(h, script, consumed, Message(result))
      decreases |script| - consumed, more
    {
      if consumed == |script| {
        return Blocked, consumed;
      }
      LoopTurn(h, script, consumed, result, lastPacketTime);
      var r := script[consumed];
      consumed := consumed + 1;
      var bytesReceived: int;
      match r {
        case Data(bytes, now) =>
          bytesReceived := |bytes|;
          result := result + bytes;
          lastPacketTime := now;
        case EndOfStream(now) =>
          bytesReceived := 0;
          if Microseconds(now - lastPacketTime) >= MAX_TIME_MS {
            return ThrewTimeout, consumed;
          }
        case WouldBlock =>
          bytesReceived := -1;
        case RecvError =>
          bytesReceived := -1;
      }
      more := bytesReceived == BUFFER_SIZE;
    }
    outcome := Message(result);
  }

  // ------------------------------------------------------------------------------------------
  // The handler told from its history
  // ------------------------------------------------------------------------------------------

  /** Every input came when the handler was waiting for it. */
  ghost predicate InTurn(inputs: seq<Input>) {
    inputs != [] ==> InTurn(Init(inputs)) && Awaits(RunFrom(FRESH, Init(inputs)).place, Last(inputs))
  }

  /** The results of recv since the last send. */
  ghost function Script(inputs: seq<Input>): seq<RecvResult> {
    if inputs == [] then []
    else
      match Last(inputs)
      case RecvInput(r) => Script(Init(inputs)) + [r]
      case SendInput(_) => []
      case CleanupInput => Script(Init(inputs))
  }

  /** Why the handler must have ended: a failed send, an end of stream that is 1.8 seconds late, or a message that ends
      without any data. */
  ghost function ExitOf(inputs: seq<Input>): Exit {
    if inputs == [] then NotYet
    else
      match Last(inputs)
      case CleanupInput => ExitOf(Init(inputs))
      case SendInput(ok) => if ok then NotYet else SendFailed
      case RecvInput(r) =>
        var script := Script(inputs);
        if r.Data? && |r.bytes| == 1024 then NotYet
        else if Expires(script, |script| - 1) then TimeLimit
        else if DataOf(script) == [] then ClientLeft
        else NotYet
  }

  /** The messages sent: for each successful send, all data since the send before. */
  ghost function Messages(inputs: seq<Input>): seq<Bytes> {
    if inputs == [] then []
    else Messages(Init(inputs)) + (if Last(inputs) == SendInput(true) then [DataOf(Script(Init(inputs)))] else [])
  }

  ghost function Cleanups(inputs: seq<Input>): nat {
    if inputs == [] then 0 else Cleanups(Init(inputs)) + (if Last(inputs).CleanupInput? then 1 else 0)
  }

  /** Two clean-ups after a time-out, one otherwise. */
  ghost function CleanupsDue(exit: Exit): nat {
    match exit
    case NotYet => 0
    case TimeLimit => 2
    case _ => 1
  }

  ghost predicate MessageComplete(inputs: seq<Input>) {
    inputs != [] && Last(inputs).RecvInput? && !(Last(inputs).result.Data? && |Last(inputs).result.bytes| == 1024)
  }

  /** The place that the history puts a handler at. */
  ghost function PlaceOf(inputs: seq<Input>): Place {
    var exit, done := ExitOf(inputs), Cleanups(inputs);
    if exit == NotYet then if MessageComplete(inputs) then Sending else Receiving
    else if done >= CleanupsDue(exit) then Gone
    else if exit == TimeLimit && done == 0 then TimedOut
    else Catching
  }

  /** What a handler has come to, in terms of what recv and send reported and how often it has cleaned up. */
  ghost predicate AsTold(h: Handler, inputs: seq<Input>) {
    && h.exit == ExitOf(inputs) && h.place == PlaceOf(inputs) && Cleanups(inputs) <= CleanupsDue(h.exit)
    && h.sent == Messages(inputs)
    && (h.exit != SendFailed ==>
          h.result == DataOf(Script(inputs)) && h.lastPacketTime == LastDataTime(Script(inputs)))
  }

  lemma ScriptNext(script: seq<RecvResult>, r: RecvResult)
    ensures DataOf(script + [r]) == DataOf(script) + (if r.Data? then r.bytes else [])
    ensures LastDataTime(script + [r]) == if r.Data? then r.now else LastDataTime(script)
    ensures Expires(script + [r], |script|) <==> r.EndOfStream? && r.now - LastDataTime(script) >= 1_800_000_000
  {
    assert Init(script + [r]) == script && (script + [r])[..|script|] == script;
  }

  lemma RecvHistory(before: seq<Input>, r: RecvResult)
    ensures var all, script := before + [RecvInput(r)], Script(before);
            && Script(all) == script + [r] && Messages(all) == Messages(before) && Cleanups(all) == Cleanups(before)
            && DataOf(Script(all)) == DataOf(script) + (if r.Data? then r.bytes else [])
            && LastDataTime(Script(all)) == (if r.Data? then r.now else LastDataTime(script))
            && (MessageComplete(all) <==> !(r.Data? && |r.bytes| == 1024))
            && ExitOf(all) ==
                 if r.Data? && |r.bytes| == 1024 then NotYet
                 else if r.EndOfStream? && r.now - LastDataTime(script) >= 1_800_000_000 then TimeLimit
                 else if DataOf(Script(all)) == [] then ClientLeft
                 else NotYet
  {
    var all := before + [RecvInput(r)];
    assert Init(all) == before && Last(all) == RecvInput(r);
    ScriptNext(Script(before), r);
    assert Messages(before) + [] == Messages(before);
  }

  lemma RecvAsTold(before: seq<Input>, h: Handler, r: RecvResult)
    requires AsTold(h, before) && h.place == Receiving
    ensures AsTold(React(h, RecvInput(r)), before + [RecvInput(r)])
  {
    RecvHistory(before, r);
    assert DataOf(Script(before)) + [] == DataOf(Script(before));
    if r.EndOfStream? {
      TimeLimitIsEighteenTenths(h, r.now);
    }
  }

  lemma OtherAsTold(before: seq<Input>, h: Handler, input: Input)
    requires AsTold(h, before) && !input.RecvInput? && Awaits(h.place, input)
    ensures AsTold(React(h, input), before + [input])
  {
    var all := before + [input];
    assert Init(all) == before && Last(all) == input;
    assert Messages(before) + [] == Messages(before);
  }

  /** On every history: a handler's place, the reason for its end, the message in hand and the messages sent follow
      from what recv and send reported; once ended it cleans up once, after a time-out twice, and is gone then. */
  lemma {:induction false} HandlerFromHistory(inputs: seq<Input>)
    requires InTurn(inputs)
    ensures AsTold(RunFrom(FRESH, inputs), inputs)
  {
    if inputs != [] {
      var before, last := Init(inputs), Last(inputs);
      HandlerFromHistory(before);
      assert inputs == before + [last];
      if last.RecvInput? {
        RecvAsTold(before, RunFrom(FRESH, before), last.result);
      } else {
        OtherAsTold(before, RunFrom(FRESH, before), last);
      }
    }
  }
}
