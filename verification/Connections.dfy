/** Whose bytes a handler gets when socket numbers are used again (Source/ReverseProxy.cpp). A connection is named by
    the index of the move that accepted it. */
module Connections {
  import opened Relay
  import opened ReverseProxy
  import SockLimiting
  import opened Sequences

  ghost predicate LastAccepts(moves: seq<Move>)
    requires moves != []
  {
    Last(moves).AcceptMove? && Possible(Run(Init(moves)), Last(moves))
  }

  ghost predicate LastInserts(moves: seq<Move>)
    requires moves != []
  {
    Last(moves).InsertMove? && Possible(Run(Init(moves)), Last(moves))
  }

  /** The last connection accepted, -1 before any. */
  ghost function Newest(moves: seq<Move>): (c: int)
    ensures -1 <= c < |moves|
  {
    if moves == [] then -1 else if LastAccepts(moves) then |moves| - 1 else Newest(Init(moves))
  }

  /** The connection that a socket number denotes: the last one accepted on it. */
  ghost function Denoted(moves: seq<Move>, socket: int): (c: int)
    ensures -1 <= c < |moves|
  {
    if moves == [] then -1
    else if LastAccepts(moves) && Last(moves).socket == socket then |moves| - 1
    else Denoted(Init(moves), socket)
  }

  /** Each handler's own connection, by the number of its thread: the one in hand when the thread was started. */
  ghost function Own(moves: seq<Move>): seq<int> {
    if moves == [] then []
    else if LastInserts(moves) then Own(Init(moves)) + [Newest(Init(moves))]
    else Own(Init(moves))
  }

  /** Every handler has its own connection, no two the same; the one in the accept loop's hands is newer than all of
      them, and its socket number denotes it. */
  ghost predicate Linked(moves: seq<Move>) {
    && |Own(moves)| == |Run(moves).threads|
    && (forall t, u :: 0 <= t < u < |Own(moves)| ==> Own(moves)[t] != Own(moves)[u])
    && (forall t :: 0 <= t < |Own(moves)| ==> 0 <= Own(moves)[t] <= Newest(moves))
    && (!Run(moves).acceptor.Waiting? ==> Pending(moves))
  }

  ghost predicate Pending(moves: seq<Move>)
    requires !Run(moves).acceptor.Waiting?
  {
    && 0 <= Newest(moves) == Denoted(moves, Run(moves).acceptor.socket)
    && Newest(moves) !in Own(moves)
  }

  lemma {:induction false} ConnectionsAreLinked(moves: seq<Move>)
    ensures Linked(moves)
  {
    if moves != [] {
      ConnectionsAreLinked(Init(moves));
    }
  }

  /** What a move does to the threads: it may start one, or add to what one has reacted to; none comes to be served
      again. */
  lemma ThreadsAfterMove(s: System, m: Move, t: nat)
    requires t < |s.threads|
    ensures t < |Apply(s, m).threads| && Apply(s, m).threads[t].socket == s.threads[t].socket
    ensures Serving(Apply(s, m).threads[t]) ==> Serving(s.threads[t])
    ensures m.AcceptMove? ==> Apply(s, m).threads == s.threads
  {
    if Possible(s, m) && m.InputMove? && m.thread == t {
      ThreadReacts(s.threads[t], m.input);
    } else if Possible(s, m) && m.CleanupMove? && m.thread == t {
      ThreadReacts(s.threads[t], CleanupInput);
    }
  }

  // ------------------------------------------------------------------------------------------
  // When a socket number denotes its handler's connection
  // ------------------------------------------------------------------------------------------

  /** The socket number of every handler that is serving denotes that handler's own connection. */
  ghost predicate OwnSockets(moves: seq<Move>)
    requires Linked(moves)
  {
    forall t: nat :: t < |Run(moves).threads| && Serving(Run(moves).threads[t]) ==>
                       Denoted(moves, Run(moves).threads[t].socket) == Own(moves)[t]
  }

  /** A socket number is accepted while a client is being served on it. */
  ghost predicate Reuses(s: System, m: Move) {
    Possible(s, m) && m.AcceptMove? && SharedSocket(s, m.socket)
  }

  lemma ReuseIsExact(moves: seq<Move>)
    requires moves != [] && Linked(Init(moves)) && Linked(moves) && OwnSockets(Init(moves))
    ensures OwnSockets(moves) <==> !Reuses(Run(Init(moves)), Last(moves))
  {
    var s, s1, m := Run(Init(moves)), Run(moves), Last(moves);
    if Reuses(s, m) {
      var t: nat :| t < |s.threads| && Serving(s.threads[t]) && s.threads[t].socket == m.socket;
      assert s1.threads == s.threads && Denoted(moves, m.socket) == |moves| - 1 && Own(moves) == Own(Init(moves));
      assert Own(moves)[t] < |moves| - 1;
    } else {
      forall t: nat | t < |s1.threads| && Serving(s1.threads[t])
        ensures Denoted(moves, s1.threads[t].socket) == Own(moves)[t]
      {
        if t < |s.threads| {
          ThreadsAfterMove(s, m, t);
          assert Denoted(Init(moves), s.threads[t].socket) == Own(Init(moves))[t];
        }
      }
    }
  }

  ghost predicate AlwaysOwnSockets(moves: seq<Move>) {
    Linked(moves) && OwnSockets(moves) && (moves != [] ==> AlwaysOwnSockets(Init(moves)))
  }

  ghost predicate NeverReused(moves: seq<Move>) {
    moves != [] ==> NeverReused(Init(moves)) && !Reuses(Run(Init(moves)), Last(moves))
  }

  /** All along a run every served handler's socket number denotes its own connection, if and only if no socket is
      accepted while another client is being served on it. */
  lemma {:induction false} OwnSocketsUnlessReused(moves: seq<Move>)
    ensures AlwaysOwnSockets(moves) <==> NeverReused(moves)
  {
    ConnectionsAreLinked(moves);
    if moves != [] {
      OwnSocketsUnlessReused(Init(moves));
      if NeverReused(Init(moves)) {
        ReuseIsExact(moves);
      }
    }
  }

  /** Without harm to the register there is no such reuse: who is served has an open socket. */
  lemma {:induction false} UnharmedIsNotReused(moves: seq<Move>)
    requires NeverHarmed(moves)
    ensures NeverReused(moves)
  {
    if moves != [] {
      UnharmedIsNotReused(Init(moves));
      RegisteredUnlessHarmed(Init(moves));
    }
  }

  // ------------------------------------------------------------------------------------------
  // Whose bytes they are
  // ------------------------------------------------------------------------------------------

  /** A recv that yields data. It reads from the connection that the handler's socket number denotes. */
  ghost predicate Reads(s: System, m: Move) {
    Possible(s, m) && m.InputMove? && m.input.RecvInput? && m.input.result.Data?
  }

  /** The bytes read from a connection so far, by whichever handlers. They are the first that its client sent. */
  ghost function Taken(moves: seq<Move>, c: int): Bytes {
    if moves == [] then []
    else
      var s, m := Run(Init(moves)), Last(moves);
      if Reads(s, m) && Denoted(Init(moves), s.threads[m.thread].socket) == c then
        Taken(Init(moves), c) + m.input.result.bytes
      else Taken(Init(moves), c)
  }

  /** Every handler has had the bytes of its own client, all that were read and nothing else. */
  ghost predicate Unmixed(moves: seq<Move>)
    requires Linked(moves)
  {
    forall t: nat :: t < |Run(moves).threads| ==>
                       Delivered(FRESH, Run(moves).threads[t].inputs) == Taken(moves, Own(moves)[t])
  }

  /** And nothing has been read from a connection that no handler has. */
  ghost predicate NoneAstray(moves: seq<Move>) {
    forall c :: c !in Own(moves) ==> Taken(moves, c) == []
  }

  /** A handler reads from a connection that is not its own. */
  ghost predicate Misreads(moves: seq<Move>, m: Move)
    requires Linked(moves)
  {
    var s := Run(moves);
    Reads(s, m) && Denoted(moves, s.threads[m.thread].socket) != Own(moves)[m.thread]
  }

  lemma DeliveredNext(inputs: seq<Input>, input: Input)
    ensures Delivered(FRESH, inputs + [input])
         == Delivered(FRESH, inputs)
            + (if RunFrom(FRESH, inputs).place.Receiving? && input.RecvInput? && input.result.Data? then
                 input.result.bytes
               else [])
  {
    assert Init(inputs + [input]) == inputs;
  }

  /** A move other than a read gives nobody any bytes. */
  lemma NothingRead(moves: seq<Move>)
    requires moves != [] && Linked(Init(moves)) && Linked(moves) && !Reads(Run(Init(moves)), Last(moves))
    ensures forall c :: Taken(moves, c) == Taken(Init(moves), c)
    ensures forall t: nat :: t < |Run(Init(moves)).threads| ==>
              && t < |Run(moves).threads|
              && Delivered(FRESH, Run(moves).threads[t].inputs)
                 == Delivered(FRESH, Run(Init(moves)).threads[t].inputs)
              && Own(moves)[t] == Own(Init(moves))[t]
  {
    var s, s1, m := Run(Init(moves)), Run(moves), Last(moves);
    forall t: nat | t < |s.threads|
      ensures t < |s1.threads| && Delivered(FRESH, s1.threads[t].inputs) == Delivered(FRESH, s.threads[t].inputs)
    {
      if Possible(s, m) && m.InputMove? && m.thread == t {
        DeliveredNext(s.threads[t].inputs, m.input);
      } else if Possible(s, m) && m.CleanupMove? && m.thread == t {
        DeliveredNext(s.threads[t].inputs, CleanupInput);
      }
    }
  }

  /** A new handler has had nothing yet. */
  lemma UnmixedAfterOther(moves: seq<Move>)
    requires moves != [] && Linked(Init(moves)) && Linked(moves) && !Reads(Run(Init(moves)), Last(moves))
    requires Unmixed(Init(moves)) && NoneAstray(Init(moves))
    ensures Unmixed(moves) && NoneAstray(moves)
  {
    NothingRead(moves);
    if LastInserts(moves) {
      assert Run(moves).threads[|Run(Init(moves)).threads|].inputs == [];
      assert Newest(Init(moves)) !in Own(Init(moves));
      assert forall c :: c in Own(Init(moves)) ==> c in Own(moves);
    }
  }

  /** A read gives its bytes to one handler, and takes them from one connection. */
  lemma OneRead(moves: seq<Move>)
    requires moves != [] && Reads(Run(Init(moves)), Last(moves))
    ensures var s, s1, m := Run(Init(moves)), Run(moves), Last(moves);
            && |s1.threads| == |s.threads| && Own(moves) == Own(Init(moves))
            && Delivered(FRESH, s1.threads[m.thread].inputs)
               == Delivered(FRESH, s.threads[m.thread].inputs) + m.input.result.bytes
            && (forall t :: 0 <= t < |s.threads| && t != m.thread ==> s1.threads[t] == s.threads[t])
  {
    var s, m := Run(Init(moves)), Last(moves);
    DeliveredNext(s.threads[m.thread].inputs, m.input);
  }

  lemma UnmixedAfterRead(moves: seq<Move>)
    requires moves != [] && Linked(Init(moves)) && Linked(moves) && Reads(Run(Init(moves)), Last(moves))
    requires Unmixed(Init(moves)) && NoneAstray(Init(moves))
    ensures Unmixed(moves) <==> !Misreads(Init(moves), Last(moves))
    ensures Unmixed(moves) ==> NoneAstray(moves)
  {
    var s, m := Run(Init(moves)), Last(moves);
    OneRead(moves);
    var t, own := m.thread, Own(moves)[m.thread];
    if Misreads(Init(moves), m) {
      assert |Taken(moves, own)| == |Taken(Init(moves), own)|;
    } else {
      assert own in Own(moves);
      forall u: nat | u < |s.threads|
        ensures Delivered(FRESH, Run(moves).threads[u].inputs) == Taken(moves, Own(moves)[u])
      {
        assert u != t ==> Own(moves)[u] != own;
      }
    }
  }

  ghost predicate AlwaysUnmixed(moves: seq<Move>) {
    Linked(moves) && Unmixed(moves) && (moves != [] ==> AlwaysUnmixed(Init(moves)))
  }

  ghost predicate NeverMisread(moves: seq<Move>) {
    moves != [] ==>
      NeverMisread(Init(moves)) && Linked(Init(moves)) && !Misreads(Init(moves), Last(moves))
  }

  /** All along a run every handler has had exactly the bytes read from its own client's connection, if and only if no
      handler ever reads from a socket number that denotes another. */
  lemma {:induction false} UnmixedUnlessMisread(moves: seq<Move>)
    ensures AlwaysUnmixed(moves) <==> NeverMisread(moves)
    ensures NeverMisread(moves) ==> NoneAstray(moves)
  {
    ConnectionsAreLinked(moves);
    if moves != [] {
      UnmixedUnlessMisread(Init(moves));
      ConnectionsAreLinked(Init(moves));
      if NeverMisread(Init(moves)) {
        if Reads(Run(Init(moves)), Last(moves)) {
          UnmixedAfterRead(moves);
        } else {
          UnmixedAfterOther(moves);
        }
      }
    }
  }

  lemma {:induction false} NotReusedIsNotMisread(moves: seq<Move>)
    requires NeverReused(moves)
    ensures NeverMisread(moves)
  {
    if moves != [] {
      NotReusedIsNotMisread(Init(moves));
      OwnSocketsUnlessReused(Init(moves));
    }
  }

  /** End to end for a client: while no socket is accepted on which another client is being served, what the server
      stream holds of a handler is a prefix of what was read from its own client's connection, short of it only by the
      message in hand. */
  lemma ServerSeesItsClient(moves: seq<Move>, t: nat)
    requires NeverReused(moves) && t < |Run(moves).threads|
    ensures Linked(moves)
    ensures var share, taken := Flatten(Project(Run(moves).log, t)), Taken(moves, Own(moves)[t]);
            share <= taken && share + Run(moves).threads[t].State().result == taken
  {
    ConnectionsAreLinked(moves);
    NotReusedIsNotMisread(moves);
    UnmixedUnlessMisread(moves);
    ServerSeesPrefix(moves, t);
  }

  // ------------------------------------------------------------------------------------------
  // It does happen
  // ------------------------------------------------------------------------------------------

  /** The second client's socket, closed by the first one's late clean-up, is accepted for a third. */
  ghost function ThirdClient(): seq<Move> {
    Connect(EarlyReuse())
  }

  lemma OwnNext(moves: seq<Move>, m: Move)
    ensures Own(moves + [m])
         == if m.InsertMove? && Possible(Run(moves), m) then Own(moves) + [Newest(moves)] else Own(moves)
    ensures m.AcceptMove? && Possible(Run(moves), m) ==>
              Newest(moves + [m]) == |moves| == Denoted(moves + [m], m.socket)
    ensures !m.AcceptMove? ==>
              Newest(moves + [m]) == Newest(moves) && Denoted(moves + [m], 5) == Denoted(moves, 5)
  {
    assert Init(moves + [m]) == moves;
  }

  lemma OwnAfterConnect(moves: seq<Move>, s: System)
    requires Run(moves) == s && CanConnect(s)
    ensures Own(Connect(moves)) == Own(moves) + [|moves|] && Denoted(Connect(moves), 5) == |moves|
  {
    var m1 := moves + [AcceptMove(5)];
    var m2 := m1 + [DecideMove("a", CheckOk)];
    ConnectSteps(s);
    RunMove(moves, AcceptMove(5));
    OwnNext(moves, AcceptMove(5));
    RunMove(m1, DecideMove("a", CheckOk));
    OwnNext(m1, DecideMove("a", CheckOk));
    OwnNext(m2, InsertMove);
  }

  lemma Lengths()
    ensures |HangUp()| == 5 && |EarlyReuse()| == 9
  {
  }

  lemma OwnUnchanged(moves: seq<Move>, m: Move, next: Move)
    requires !m.AcceptMove? && !m.InsertMove? && !next.AcceptMove? && !next.InsertMove?
    ensures Own(moves + [m] + [next]) == Own(moves)
  {
    OwnNext(moves, m);
    OwnNext(moves + [m], next);
  }

  lemma OwnAtFirst()
    ensures Own(Connect([])) == [0]
  {
    OwnAfterConnect([], INITIAL);
  }

  lemma OwnAfterHangUp()
    ensures Own(HangUp()) == [0]
  {
    OwnAtFirst();
    OwnUnchanged(Connect([]), InputMove(0, HANG_UP), CleanupMove(0, "a"));
  }

  lemma OwnAfterEarlyReuse()
    ensures Own(EarlyReuse()) == [0, 5]
  {
    Lengths();
    OwnAfterHangUp();
    AfterHangUp();
    OwnAfterConnect(HangUp(), Run(HangUp()));
    OwnNext(Connect(HangUp()), CleanupMove(0, "a"));
  }

  lemma AfterThirdClient()
    ensures var s := Run(ThirdClient());
            && |s.threads| == 3 && s.threads[1] == Thread(5, []) == s.threads[2] && s.log == []
  {
    AfterEarlyReuse();
    RunConnect(EarlyReuse(), Run(EarlyReuse()));
  }

  lemma OwnAfterThirdClient()
    ensures Own(ThirdClient()) == [0, 5, 9] && Denoted(ThirdClient(), 5) == 9
  {
    AfterEarlyReuse();
    OwnAfterEarlyReuse();
    Lengths();
    OwnAfterConnect(EarlyReuse(), Run(EarlyReuse()));
  }

  /** Two clients are then served on one socket number, which denotes the later one's connection. */
  lemma TwoServedOnOneSocket()
    ensures var s := Run(ThirdClient());
            && |s.threads| == 3 && Serving(s.threads[1]) && Serving(s.threads[2])
            && s.threads[1].socket == 5 == s.threads[2].socket
    ensures Own(ThirdClient()) == [0, 5, 9] && Denoted(ThirdClient(), 5) == 9
  {
    AfterThirdClient();
    OwnAfterThirdClient();
    assert Thread(5, []).State() == FRESH;
  }

  const BYTE := RecvInput(Data([0x68], 0))

  /** The third client sends one byte, and the second one's handler sends it on to the server. */
  ghost function MixUp(): seq<Move> {
    ThirdClient() + [InputMove(1, BYTE)] + [InputMove(1, SendInput(true))]
  }

  lemma TakenNext(moves: seq<Move>, m: Move, c: int)
    ensures Taken(moves + [m], c)
         == if Reads(Run(moves), m) && Denoted(moves, Run(moves).threads[m.thread].socket) == c then
              Taken(moves, c) + m.input.result.bytes
            else Taken(moves, c)
  {
    assert Init(moves + [m]) == moves;
  }

  lemma TakenAfterConnect(moves: seq<Move>, c: int)
    ensures Taken(Connect(moves), c) == Taken(moves, c)
  {
    var m1 := moves + [AcceptMove(5)];
    TakenNext(moves, AcceptMove(5), c);
    TakenNext(m1, DecideMove("a", CheckOk), c);
    TakenNext(m1 + [DecideMove("a", CheckOk)], InsertMove, c);
  }

  lemma NothingTakenYet(c: int)
    ensures Taken(ThirdClient(), c) == []
  {
    TakenAfterConnect([], c);
    TakenNext(Connect([]), InputMove(0, HANG_UP), c);
    TakenNext(Connect([]) + [InputMove(0, HANG_UP)], CleanupMove(0, "a"), c);
    TakenAfterConnect(HangUp(), c);
    TakenNext(Connect(HangUp()), CleanupMove(0, "a"), c);
    TakenAfterConnect(EarlyReuse(), c);
  }

  lemma ByteSteps(s: System)
    requires |s.threads| == 3 && s.threads[1] == Thread(5, []) && s.log == []
    ensures var s1 := Apply(s, InputMove(1, BYTE));
            var s2 := Apply(s1, InputMove(1, SendInput(true)));
            Reads(s, InputMove(1, BYTE)) && |s2.threads| == 3 && s2.log == [(1, [0x68])]
  {
    var s1 := Apply(s, InputMove(1, BYTE));
    ThreadReacts(Thread(5, []), BYTE);
    assert s1.threads[1] == Thread(5, [] + [BYTE]);
    assert [] + [0x68] == [0x68 as bv8];
  }

  lemma AfterMixUp(moves: seq<Move>)
    requires var s := Run(moves); |s.threads| == 3 && s.threads[1] == Thread(5, []) && s.log == []
    requires Denoted(moves, 5) == 9 && Taken(moves, 5) == [] == Taken(moves, 9)
    ensures var all := moves + [InputMove(1, BYTE)] + [InputMove(1, SendInput(true))];
            && |Run(all).threads| == 3 && Run(all).log == [(1, [0x68])] && Own(all) == Own(moves)
            && Taken(all, 5) == [] && Taken(all, 9) == [0x68]
  {
    var m := moves + [InputMove(1, BYTE)];
    ByteSteps(Run(moves));
    RunMove(moves, InputMove(1, BYTE));
    RunMove(m, InputMove(1, SendInput(true)));
    OwnNext(moves, InputMove(1, BYTE));
    OwnNext(m, InputMove(1, SendInput(true)));
    TakenNext(moves, InputMove(1, BYTE), 5);
    TakenNext(moves, InputMove(1, BYTE), 9);
    TakenNext(m, InputMove(1, SendInput(true)), 5);
    TakenNext(m, InputMove(1, SendInput(true)), 9);
  }

  /** The condition is needed: the second client's handler, whose own connection is 5, puts on the stream a byte of the
      third client, whose connection is 9. */
  lemma MixUpReachesServer()
    ensures var all := MixUp();
            && |Run(all).threads| == 3 && Own(all) == [0, 5, 9]
            && Flatten(Project(Run(all).log, 1)) == [0x68] && Taken(all, 5) == [] && Taken(all, 9) == [0x68]
  {
    AfterThirdClient();
    OwnAfterThirdClient();
    NothingTakenYet(5);
    NothingTakenYet(9);
    AfterMixUp(ThirdClient());
    ProjectNext([], (1, [0x68]), 1);
    FlattenNext([], [0x68]);
    assert [] + [(1 as nat, [0x68 as bv8])] == [(1, [0x68])] && [] + [[0x68 as bv8]] == [[0x68]];
  }
}
