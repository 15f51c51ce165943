/**
 The SCTP closing procedure of pc/data_channel.h between two peers, over one stream id that is used,
 closed and used again any number of times. Each direction of the stream is ordered and reliable, and
 carries data, stream resets and the acknowledgements of resets. Messages are tagged with the use of
 the id they belong to; the tag is for the theorems only, no step looks at it.
 */
module DataChannelClose {
  import opened Common

  type Payload = seq<nat>

  datatype Message = Data(use: nat, payload: Payload) | Reset(use: nat) | Ack(use: nat)

  datatype State = Open | Closing | Closed

  /** What one use of the id carried: the payloads accepted by Send and those that arrived. */
  datatype Log = Log(sent: seq<Payload>, arrived: seq<Payload>)

  /** One peer's end of the channel; `past` are the finished uses of the id. */
  datatype Side = Side(
    state: State,
    queue: seq<Payload>,
    resetSent: bool,
    resetAcked: bool,
    resetReceived: bool,
    log: Log,
    past: seq<Log>)
  {
    function Use(): nat {
      |past|
    }
  }

  const Unused := Side(Closed, [], false, false, false, Log([], []), [])

  // ---- What one side does ----

  /** A new channel takes the id once it is free. */
  function Reopen(s: Side): Side {
    if s.state.Closed? then Side(Open, [], false, false, false, Log([], []), s.past + [s.log]) else s
  }

  function Send(s: Side, p: Payload): Side {
    if s.state.Open? then s.(queue := s.queue + [p], log := s.log.(sent := s.log.sent + [p])) else s
  }

  function Close(s: Side): Side {
    if s.state.Open? then s.(state := Closing) else s
  }

  predicate CanFlush(s: Side) {
    !s.state.Closed? && s.queue != [] && !s.resetSent
  }

  function Flush(s: Side): (Side, Message)
    requires CanFlush(s)
  {
    (s.(queue := s.queue[1..]), Data(s.Use(), s.queue[0]))
  }

  predicate CanReset(s: Side) {
    s.state.Closing? && s.queue == [] && !s.resetSent
  }

  /** RemoveSctpDataStream, once all queued data has gone out. */
  function StartReset(s: Side): (Side, Message)
    requires CanReset(s)
  {
    (s.(resetSent := true), Reset(s.Use()))
  }

  /** OnClosingProcedureComplete, once both resets are done. */
  function Complete(s: Side): Side {
    if s.resetSent && s.resetAcked && s.resetReceived
    then s.(state := Closed, resetSent := false, resetAcked := false, resetReceived := false) else s
  }

  /** Data or a reset on a free id opens the channel here too; a reset is acknowledged and starts closing. */
  function Receive(s: Side, m: Message): (Side, seq<Message>) {
    match m
    case Data(_, p) =>
      var s := Reopen(s);
      (s.(log := s.log.(arrived := s.log.arrived + [p])), [])
    case Reset(_) =>
      var s := Reopen(s);
      (Complete(s.(state := Closing, resetReceived := true)), [Ack(s.Use())])
    case Ack(_) => (Complete(s.(resetAcked := true)), [])
  }

  // ---- Two sides ----

  datatype System = System(me: Side, peer: Side, toPeer: seq<Message>, toMe: seq<Message>)

  const Initial := System(Unused, Unused, [], [])

  function Flip(s: System): System {
    System(s.peer, s.me, s.toMe, s.toPeer)
  }

  datatype Action = DoReopen | DoSend(payload: Payload) | DoClose | DoFlush | DoReset | DoReceive

  predicate Enabled(s: System, a: Action) {
    match a
    case DoFlush => CanFlush(s.me)
    case DoReset => CanReset(s.me)
    case DoReceive => s.toMe != []
    case _ => true
  }

  function Act(s: System, a: Action): System
    requires Enabled(s, a)
  {
    match a
    case DoReopen => s.(me := Reopen(s.me))
    case DoSend(p) => s.(me := Send(s.me, p))
    case DoClose => s.(me := Close(s.me))
    case DoFlush => var (me, m) := Flush(s.me); s.(me := me, toPeer := s.toPeer + [m])
    case DoReset => var (me, m) := StartReset(s.me); s.(me := me, toPeer := s.toPeer + [m])
    case DoReceive =>
      var (me, ms) := Receive(s.me, s.toMe[0]);
      s.(me := me, toPeer := s.toPeer + ms, toMe := s.toMe[1..])
  }

  datatype Move = Move(byPeer: bool, action: Action)

  predicate MoveEnabled(s: System, v: Move) {
    Enabled(if v.byPeer then Flip(s) else s, v.action)
  }

  function Step(s: System, v: Move): System
    requires MoveEnabled(s, v)
  {
    if v.byPeer then Flip(Act(Flip(s), v.action)) else Act(s, v.action)
  }

  ghost predicate Reachable(s: System, moves: seq<Move>)
    decreases |moves|
  {
    if moves == [] then s == Initial
    else
      var last := moves[|moves| - 1];
      exists before :: Reachable(before, moves[..|moves| - 1]) && MoveEnabled(before, last) && s == Step(before, last)
  }

  // ---- The invariant ----

  function DataIn(ms: seq<Message>): seq<Payload> {
    if ms == [] then []
    else DataIn(ms[..|ms| - 1]) + if ms[|ms| - 1].Data? then [ms[|ms| - 1].payload] else []
  }

  predicate AllOf(ms: seq<Message>, use: nat) {
    forall i :: 0 <= i < |ms| ==> ms[i].use == use
  }

  /** At most one reset, and no data behind it. */
  predicate ResetIsLast(ms: seq<Message>) {
    forall i, j :: 0 <= i < j < |ms| && ms[i].Reset? ==> ms[j].Ack?
  }

  predicate HasReset(ms: seq<Message>) {
    exists i :: 0 <= i < |ms| && ms[i].Reset?
  }

  predicate HasAck(ms: seq<Message>) {
    exists i :: 0 <= i < |ms| && ms[i].Ack?
  }

  predicate OneAck(ms: seq<Message>) {
    forall i, j :: 0 <= i < j < |ms| && ms[i].Ack? ==> !ms[j].Ack?
  }

  /** Both ends are in the same use of the id: what flows from `x` to `y`, and the acknowledgement of `y`'s reset. */
  ghost predicate Flows(x: Side, y: Side, ms: seq<Message>) {
    && x.log.sent == y.log.arrived + DataIn(ms) + x.queue
    && AllOf(ms, x.Use()) && ResetIsLast(ms) && OneAck(ms)
    && (HasReset(ms) <==> x.resetSent && !y.resetReceived)
    && (HasAck(ms) <==> x.resetReceived && !y.resetAcked)
    && (y.resetReceived ==> x.resetSent && DataIn(ms) == [])
    && (y.resetAcked ==> x.resetReceived)
    && (x.resetSent || x.resetReceived ==> x.state.Closing?)
    && (x.resetSent ==> x.queue == [])
    && !(x.resetSent && x.resetAcked && x.resetReceived)
  }

  predicate Matches(l: Log, k: Log) {
    l.sent == k.arrived && l.arrived == k.sent
  }

  /** The finished uses that both ends know of carried the same data. */
  predicate PastMatches(x: Side, y: Side) {
    forall u :: 0 <= u < |x.past| && u < |y.past| ==> Matches(x.past[u], y.past[u])
  }

  ghost predicate Together(s: System) {
    && !s.me.state.Closed? && !s.peer.state.Closed? && s.me.Use() == s.peer.Use()
    && Flows(s.me, s.peer, s.toPeer) && Flows(s.peer, s.me, s.toMe)
  }

  predicate Idle(x: Side) {
    x.state.Closed? && x.queue == [] && !x.resetSent && !x.resetAcked && !x.resetReceived
  }

  /** Waiting only for the acknowledgement of its reset. */
  predicate AwaitsAck(x: Side) {
    x.state.Closing? && x.queue == [] && x.resetSent && x.resetReceived && !x.resetAcked
  }

  /** I have closed; the peer has too, or the acknowledgement it waits for is on its way. */
  ghost predicate Finished(s: System) {
    && s.me.Use() == s.peer.Use() && Idle(s.me) && Matches(s.me.log, s.peer.log) && s.toMe == []
    && if Idle(s.peer) then s.toPeer == [] else AwaitsAck(s.peer) && s.toPeer == [Ack(s.me.Use())]
  }

  /** I have taken the id again while the peer is, or is about to be, done with its last use. */
  ghost predicate Ahead(s: System) {
    && s.me.Use() == s.peer.Use() + 1 && !s.me.state.Closed? && s.toMe == []
    && !s.me.resetReceived && !s.me.resetAcked && (s.me.resetSent ==> s.me.state.Closing? && s.me.queue == [])
    && Matches(s.me.past[s.peer.Use()], s.peer.log)
    && (if Idle(s.peer) then Fresh(s.me, s.toPeer)
        else AwaitsAck(s.peer) && s.toPeer != [] && s.toPeer[0] == Ack(s.peer.Use()) && Fresh(s.me, s.toPeer[1..]))
  }

  /** Only messages of the new use, none of them received yet. */
  ghost predicate Fresh(x: Side, ms: seq<Message>) {
    && x.log.sent == DataIn(ms) + x.queue && x.log.arrived == []
    && AllOf(ms, x.Use()) && ResetIsLast(ms) && !HasAck(ms) && (HasReset(ms) <==> x.resetSent)
  }

  ghost predicate Inv(s: System) {
    && PastMatches(s.me, s.peer)
    && (Together(s) || Finished(s) || Finished(Flip(s)) || Ahead(s) || Ahead(Flip(s)))
  }

  // ---- Messages in flight ----

  lemma {:induction false} Push(ms: seq<Message>, m: Message)
    ensures DataIn(ms + [m]) == DataIn(ms) + if m.Data? then [m.payload] else []
    ensures HasReset(ms + [m]) <==> HasReset(ms) || m.Reset?
    ensures HasAck(ms + [m]) <==> HasAck(ms) || m.Ack?
    ensures forall use :: AllOf(ms, use) && m.use == use ==> AllOf(ms + [m], use)
    ensures ResetIsLast(ms) && (HasReset(ms) ==> m.Ack?) ==> ResetIsLast(ms + [m])
    ensures OneAck(ms) && !(HasAck(ms) && m.Ack?) ==> OneAck(ms + [m])
  {
  }

  lemma {:induction false} DataInPop(ms: seq<Message>)
    requires ms != []
    ensures DataIn(ms) == (if ms[0].Data? then [ms[0].payload] else []) + DataIn(ms[1..])
  {
    if |ms| == 1 {
      assert ms[..0] == [] && ms[1..] == [];
    } else {
      assert ms[..|ms| - 1][1..] == ms[1..][..|ms| - 2];
      DataInPop(ms[..|ms| - 1]);
    }
  }

  lemma {:induction false} NoData(ms: seq<Message>)
    ensures DataIn(ms) == [] <==> forall i :: 0 <= i < |ms| ==> !ms[i].Data?
  {
    if ms != [] {
      NoData(ms[..|ms| - 1]);
    }
  }

  lemma {:induction false} Pop(ms: seq<Message>)
    requires ms != []
    ensures DataIn(ms) == (if ms[0].Data? then [ms[0].payload] else []) + DataIn(ms[1..])
    ensures HasReset(ms) <==> HasReset(ms[1..]) || ms[0].Reset?
    ensures HasAck(ms) <==> HasAck(ms[1..]) || ms[0].Ack?
    ensures forall use :: AllOf(ms, use) ==> ms[0].use == use && AllOf(ms[1..], use)
    ensures ResetIsLast(ms) ==> ResetIsLast(ms[1..])
    ensures ResetIsLast(ms) && ms[0].Reset? ==> !HasReset(ms[1..]) && DataIn(ms[1..]) == []
    ensures OneAck(ms) ==> OneAck(ms[1..]) && (ms[0].Ack? ==> !HasAck(ms[1..]))
  {
    DataInPop(ms);
    NoData(ms[1..]);
    assert forall i :: 0 <= i < |ms| - 1 ==> ms[1..][i] == ms[i + 1];
    if HasReset(ms) && !ms[0].Reset? {
      var i :| 0 <= i < |ms| && ms[i].Reset?;
      assert ms[1..][i - 1].Reset?;
    }
    if HasAck(ms) && !ms[0].Ack? {
      var i :| 0 <= i < |ms| && ms[i].Ack?;
      assert ms[1..][i - 1].Ack?;
    }
  }

  lemma {:induction false} OnlyAck(ms: seq<Message>, use: nat)
    requires AllOf(ms, use) && OneAck(ms) && DataIn(ms) == [] && !HasReset(ms)
    ensures ms == if HasAck(ms) then [Ack(use)] else []
  {
  }

  // ---- Every step keeps the invariant ----

  lemma {:induction false} TogetherSend(s: System, p: Payload)
    requires Together(s)
    ensures Together(Act(s, DoSend(p)))
  {
  }

  lemma {:induction false} TogetherFlush(s: System)
    requires Together(s) && CanFlush(s.me)
    ensures Together(Act(s, DoFlush))
  {
    var m := Flush(s.me).1;
    Push(s.toPeer, m);
    assert [m.payload] + s.me.queue[1..] == s.me.queue;
    assert s.peer.log.arrived + (DataIn(s.toPeer) + [m.payload]) + s.me.queue[1..]
        == s.peer.log.arrived + DataIn(s.toPeer) + ([m.payload] + s.me.queue[1..]);
  }

  lemma {:induction false} TogetherStartsReset(s: System)
    requires Together(s) && CanReset(s.me)
    ensures Together(Act(s, DoReset))
  {
    Push(s.toPeer, Reset(s.me.Use()));
    assert DataIn(s.toPeer) + [] == DataIn(s.toPeer);
  }

  lemma {:induction false} TogetherSends(s: System, a: Action)
    requires Together(s) && Enabled(s, a) && !a.DoReceive?
    ensures Together(Act(s, a))
  {
    match a {
      case DoSend(p) => TogetherSend(s, p);
      case DoFlush => TogetherFlush(s);
      case DoReset => TogetherStartsReset(s);
      case DoClose =>
      case DoReopen =>
    }
  }

  lemma {:induction false} TogetherData(s: System)
    requires Together(s) && s.toMe != [] && s.toMe[0].Data?
    ensures Together(Act(s, DoReceive))
  {
    Pop(s.toMe);
    var p := s.toMe[0].payload;
    assert s.me.log.arrived + [p] + DataIn(s.toMe[1..]) == s.me.log.arrived + DataIn(s.toMe);
    assert s.toPeer + [] == s.toPeer;
  }

  lemma {:induction false} ResetWaitsOut(s: System)
    requires Together(s) && s.toMe != [] && s.toMe[0].Reset? && !(s.me.resetSent && s.me.resetAcked)
    ensures var s' := Act(s, DoReceive); !s'.me.state.Closed? && Flows(s'.me, s'.peer, s'.toPeer)
  {
    Pop(s.toMe);
    Push(s.toPeer, Ack(s.me.Use()));
    assert DataIn(s.toPeer) + [] == DataIn(s.toPeer);
  }

  lemma {:induction false} ResetWaitsIn(s: System)
    requires Together(s) && s.toMe != [] && s.toMe[0].Reset? && !(s.me.resetSent && s.me.resetAcked)
    ensures var s' := Act(s, DoReceive); Flows(s'.peer, s'.me, s'.toMe)
  {
    Pop(s.toMe);
    assert [] + DataIn(s.toMe[1..]) == DataIn(s.toMe[1..]);
  }

  lemma {:induction false} TogetherResetWaits(s: System)
    requires Together(s) && s.toMe != [] && s.toMe[0].Reset? && !(s.me.resetSent && s.me.resetAcked)
    ensures Together(Act(s, DoReceive))
  {
    ResetWaitsOut(s);
    ResetWaitsIn(s);
  }

  lemma {:induction false} TogetherResetCloses(s: System)
    requires Together(s) && s.toMe != [] && s.toMe[0].Reset? && s.me.resetSent && s.me.resetAcked
    ensures Finished(Act(s, DoReceive))
  {
  }

  lemma {:induction false} TogetherReset(s: System)
    requires Together(s) && s.toMe != [] && s.toMe[0].Reset?
    ensures Together(Act(s, DoReceive)) || Finished(Act(s, DoReceive))
  {
    if s.me.resetSent && s.me.resetAcked {
      TogetherResetCloses(s);
    } else {
      TogetherResetWaits(s);
    }
  }

  lemma {:induction false} TogetherAck(s: System)
    requires Together(s) && s.toMe != [] && s.toMe[0].Ack?
    ensures Together(Act(s, DoReceive)) || Finished(Act(s, DoReceive))
  {
    Pop(s.toMe);
    if s.me.resetSent && s.me.resetReceived {
      OnlyAck(s.toPeer, s.me.Use());
      OnlyAck(s.toMe[1..], s.me.Use());
    }
  }

  lemma {:induction false} TogetherKept(s: System, a: Action)
    requires Together(s) && PastMatches(s.me, s.peer) && Enabled(s, a)
    ensures Inv(Act(s, a))
  {
    if !a.DoReceive? {
      TogetherSends(s, a);
    } else if s.toMe[0].Data? {
      TogetherData(s);
    } else if s.toMe[0].Reset? {
      TogetherReset(s);
    } else {
      TogetherAck(s);
    }
  }

  lemma {:induction false} FinishedKept(s: System, a: Action)
    requires Finished(s) && PastMatches(s.me, s.peer) && Enabled(s, a)
    ensures Inv(Act(s, a))
  {
  }

  lemma {:induction false} PeerFinishedKept(s: System, a: Action)
    requires Finished(Flip(s)) && !Idle(s.me) && PastMatches(s.me, s.peer) && Enabled(s, a)
    ensures Inv(Act(s, a))
  {
  }

  lemma {:induction false} FreshSend(x: Side, ms: seq<Message>, p: Payload)
    requires Fresh(x, ms)
    ensures Fresh(Send(x, p), ms)
  {
  }

  lemma {:induction false} FreshFlush(x: Side, ms: seq<Message>)
    requires Fresh(x, ms) && CanFlush(x)
    ensures Fresh(Flush(x).0, ms + [Flush(x).1])
  {
  }

  lemma {:induction false} FreshReset(x: Side, ms: seq<Message>)
    requires Fresh(x, ms) && CanReset(x)
    ensures Fresh(StartReset(x).0, ms + [StartReset(x).1])
  {
  }

  lemma {:induction false} FreshKept(s: System, a: Action, ms: seq<Message>)
    requires Fresh(s.me, ms) && Enabled(s, a) && !a.DoReceive? && !s.me.state.Closed?
    ensures Fresh(Act(s, a).me, ms + Emitted(s, a))
    ensures Act(s, a).toPeer == s.toPeer + Emitted(s, a)
  {
    assert ms + [] == ms && s.toPeer + [] == s.toPeer;
    match a {
      case DoFlush => FreshFlush(s.me, ms);
      case DoReset => FreshReset(s.me, ms);
      case DoSend(p) => FreshSend(s.me, ms, p);
      case DoClose =>
      case DoReopen =>
    }
  }

  function Emitted(s: System, a: Action): seq<Message>
    requires Enabled(s, a)
  {
    if a.DoFlush? then [Flush(s.me).1] else if a.DoReset? then [StartReset(s.me).1] else []
  }

  lemma {:induction false} AheadKept(s: System, a: Action)
    requires Ahead(s) && PastMatches(s.me, s.peer) && Enabled(s, a)
    ensures Inv(Act(s, a))
  {
    var s' := Act(s, a);
    if Idle(s.peer) {
      FreshKept(s, a, s.toPeer);
    } else {
      FreshKept(s, a, s.toPeer[1..]);
      assert s'.toPeer[1..] == s.toPeer[1..] + Emitted(s, a);
    }
    assert Ahead(s');
  }

  /** The side that is behind catches up. */
  lemma {:induction false} CatchUp(s: System)
    requires Ahead(Flip(s)) && Idle(s.me) && PastMatches(s.me, s.peer)
    ensures Together(s.(me := Reopen(s.me))) && PastMatches(Reopen(s.me), s.peer)
  {
  }

  lemma {:induction false} PeerAheadKept(s: System, a: Action)
    requires Ahead(Flip(s)) && PastMatches(s.me, s.peer) && Enabled(s, a)
    ensures Inv(Act(s, a))
  {
    if Idle(s.me) {
      CatchUp(s);
      if a.DoReceive? {
        Pop(s.toMe);
        TogetherKept(s.(me := Reopen(s.me)), a);
      }
    } else if a.DoReceive? {
      assert Ahead(Flip(Act(s, a)));
    }
  }

  lemma {:induction false} ActKeepsInv(s: System, a: Action)
    requires Inv(s) && Enabled(s, a)
    ensures Inv(Act(s, a))
  {
    if Together(s) {
      TogetherKept(s, a);
    } else if Finished(s) {
      FinishedKept(s, a);
    } else if Finished(Flip(s)) {
      PeerFinishedKept(s, a);
    } else if Ahead(s) {
      AheadKept(s, a);
    } else {
      PeerAheadKept(s, a);
    }
  }

  lemma {:induction false} FlipKeepsInv(s: System)
    requires Inv(s)
    ensures Inv(Flip(s))
  {
  }

  lemma {:induction false} StepKeepsInv(s: System, v: Move)
    requires Inv(s) && MoveEnabled(s, v)
    ensures Inv(Step(s, v))
  {
    if v.byPeer {
      FlipKeepsInv(s);
      ActKeepsInv(Flip(s), v.action);
      FlipKeepsInv(Act(Flip(s), v.action));
    } else {
      ActKeepsInv(s, v.action);
    }
  }

  lemma {:induction false} ReachableInv(s: System, moves: seq<Move>)
    requires Reachable(s, moves)
    ensures Inv(s)
    decreases |moves|
  {
    if moves != [] {
      var last := moves[|moves| - 1];
      var before :| Reachable(before, moves[..|moves| - 1]) && MoveEnabled(before, last) && s == Step(before, last);
      ReachableInv(before, moves[..|moves| - 1]);
      StepKeepsInv(before, last);
    } else {
      assert Finished(Initial);
    }
  }

  // ---- What holds over every run ----

  function FlipMove(v: Move): Move {
    v.(byPeer := !v.byPeer)
  }

  /** The moves with the two sides exchanged. */
  function FlipMoves(moves: seq<Move>): (flipped: seq<Move>)
    ensures |flipped| == |moves|
  {
    if moves == [] then [] else FlipMoves(moves[..|moves| - 1]) + [FlipMove(moves[|moves| - 1])]
  }

  lemma {:induction false} StepFlips(s: System, v: Move)
    requires MoveEnabled(s, v)
    ensures MoveEnabled(Flip(s), FlipMove(v)) && Step(Flip(s), FlipMove(v)) == Flip(Step(s, v))
  {
    assert Flip(Flip(s)) == s;
  }

  lemma {:induction false} ReachableStep(s: System, moves: seq<Move>, v: Move)
    requires Reachable(s, moves) && MoveEnabled(s, v)
    ensures Reachable(Step(s, v), moves + [v])
  {
    var all := moves + [v];
    assert all[..|all| - 1] == moves && all[|all| - 1] == v;
    assert Reachable(s, all[..|all| - 1]);
  }

  /** Neither side is special: what holds of `me` in every run holds of the peer. */
  lemma {:induction false} ReachableFlips(s: System, moves: seq<Move>)
    requires Reachable(s, moves)
    ensures Reachable(Flip(s), FlipMoves(moves))
    decreases |moves|
  {
    if moves != [] {
      var front, last := moves[..|moves| - 1], moves[|moves| - 1];
      var before :| Reachable(before, front) && MoveEnabled(before, last) && s == Step(before, last);
      ReachableFlips(before, front);
      StepFlips(before, last);
      ReachableStep(Flip(before), FlipMoves(front), FlipMove(last));
    }
  }

  /** Whatever is received is received in the use of the id it was sent in; nothing acknowledges a closed channel. */
  lemma {:induction false} NoStaleMessage(s: System, moves: seq<Move>)
    requires Reachable(s, moves) && s.toMe != []
    ensures if s.toMe[0].Ack? then s.toMe[0].use == s.me.Use() && !s.me.state.Closed?
            else s.toMe[0].use == Reopen(s.me).Use()
  {
    ReachableInv(s, moves);
  }

  /** When a side is closed, nothing of that use is in flight but the acknowledgement the other side waits for. */
  lemma {:induction false} ClosedMeansDrained(s: System, moves: seq<Move>)
    requires Reachable(s, moves) && s.me.state.Closed?
    ensures s.me.queue == []
    ensures forall m :: m in s.toPeer ==> m == Ack(s.me.Use())
    ensures forall m :: m in s.toMe ==> m.use == s.me.Use() + 1
  {
    ReachableInv(s, moves);
  }

  function LogOf(x: Side, use: nat): Log
    requires use <= x.Use()
  {
    if use < x.Use() then x.past[use] else x.log
  }

  /** The state that the moves lead to from the start, if each of them can be taken. */
  function StateAfter(moves: seq<Move>): Option<System> {
    if moves == [] then Some(Initial)
    else
      var before, last := StateAfter(moves[..|moves| - 1]), moves[|moves| - 1];
      if before.Some? && MoveEnabled(before.value, last) then Some(Step(before.value, last)) else None
  }

  lemma {:induction false} ReachableIsStateAfter(s: System, moves: seq<Move>)
    requires Reachable(s, moves)
    ensures StateAfter(moves) == Some(s)
    decreases |moves|
  {
    if moves != [] {
      var front, last := moves[..|moves| - 1], moves[|moves| - 1];
      var before :| Reachable(before, front) && MoveEnabled(before, last) && s == Step(before, last);
      ReachableIsStateAfter(before, front);
    }
  }

  function SideOf(s: System, byPeer: bool): Side {
    if byPeer then s.peer else s.me
  }

  /** The payload of a Send by that side in that use of the id, if the channel was open. */
  function AcceptedBy(before: System, v: Move, byPeer: bool, use: nat): seq<Payload> {
    var x := SideOf(before, byPeer);
    if v.byPeer == byPeer && v.action.DoSend? && x.state.Open? && x.Use() == use then [v.action.payload] else []
  }

  /** What the side's application handed to Send while the channel was open, in that use of the id. */
  function Accepted(moves: seq<Move>, byPeer: bool, use: nat): seq<Payload> {
    if moves == [] then []
    else
      var front, last := moves[..|moves| - 1], moves[|moves| - 1];
      var before := StateAfter(front);
      Accepted(front, byPeer, use) + if before.Some? then AcceptedBy(before.value, last, byPeer, use) else []
  }

  function SentIn(x: Side, use: nat): seq<Payload> {
    if use < x.Use() then x.past[use].sent else if use == x.Use() then x.log.sent else []
  }

  lemma {:induction false} ReopenSent(x: Side, use: nat)
    ensures SentIn(Reopen(x), use) == SentIn(x, use)
  {
  }

  lemma {:induction false} ReceiveSent(x: Side, m: Message, use: nat)
    ensures SentIn(Receive(x, m).0, use) == SentIn(x, use)
  {
    ReopenSent(x, use);
  }

  lemma {:induction false} ActSent(s: System, a: Action, use: nat)
    requires Enabled(s, a)
    ensures Act(s, a).peer == s.peer
    ensures SentIn(Act(s, a).me, use) == SentIn(s.me, use) + AcceptedBy(s, Move(false, a), false, use)
  {
    match a {
      case DoReopen => ReopenSent(s.me, use);
      case DoReceive => ReceiveSent(s.me, s.toMe[0], use);
      case _ =>
    }
  }

  lemma {:induction false} StepSent(s: System, v: Move, byPeer: bool, use: nat)
    requires MoveEnabled(s, v)
    ensures SentIn(SideOf(Step(s, v), byPeer), use)
         == SentIn(SideOf(s, byPeer), use) + AcceptedBy(s, v, byPeer, use)
  {
    ActSent(if v.byPeer then Flip(s) else s, v.action, use);
  }

  lemma {:induction false} SentIsAccepted(s: System, moves: seq<Move>, byPeer: bool, use: nat)
    requires Reachable(s, moves)
    ensures SentIn(SideOf(s, byPeer), use) == Accepted(moves, byPeer, use)
    decreases |moves|
  {
    if moves != [] {
      var front, last := moves[..|moves| - 1], moves[|moves| - 1];
      var before :| Reachable(before, front) && MoveEnabled(before, last) && s == Step(before, last);
      ReachableIsStateAfter(before, front);
      SentIsAccepted(before, front, byPeer, use);
      StepSent(before, last, byPeer, use);
    }
  }

  /**
   Every use of the id that one side has finished delivered, in both directions and in order, exactly the data
   that the applications handed to Send while the channel was open.
   */
  lemma {:induction false} FinishedUsesDelivered(s: System, moves: seq<Move>, use: nat)
    requires Reachable(s, moves)
    requires use < s.me.Use() || (use == s.me.Use() && s.me.state.Closed?)
    ensures use <= s.peer.Use() && Matches(LogOf(s.me, use), LogOf(s.peer, use))
    ensures LogOf(s.peer, use).arrived == Accepted(moves, false, use)
    ensures LogOf(s.me, use).arrived == Accepted(moves, true, use)
  {
    ReachableInv(s, moves);
    SentIsAccepted(s, moves, false, use);
    SentIsAccepted(s, moves, true, use);
  }

  /** All data accepted before Close leaves before the reset does. */
  lemma {:induction false} DataPrecedesReset(s: System, moves: seq<Move>, i: nat)
    requires Reachable(s, moves) && i < |s.toPeer| && s.toPeer[i].Reset?
    ensures s.me.queue == [] && s.me.resetSent
    ensures forall j :: i < j < |s.toPeer| ==> !s.toPeer[j].Data?
  {
    ReachableInv(s, moves);
    if Ahead(s) && !Idle(s.peer) {
      assert s.toPeer[1..][i - 1] == s.toPeer[i];
    }
  }

  // ---- Closing completes ----

  predicate Protocol(a: Action) {
    a.DoFlush? || a.DoReset? || a.DoReceive?
  }

  function Weight(m: Message): nat {
    if m.Reset? then 2 else 1
  }

  function Load(ms: seq<Message>): nat {
    if ms == [] then 0 else Weight(ms[0]) + Load(ms[1..])
  }

  /** A side that the other one is ahead of still has a whole use before it. */
  function SideLoad(x: Side, other: Side): nat {
    if x.Use() < other.Use() then 3
    else 2 * |x.queue| + if x.resetSent || x.state.Closed? then 0 else 3
  }

  function TotalLoad(s: System): nat {
    SideLoad(s.me, s.peer) + SideLoad(s.peer, s.me) + Load(s.toPeer) + Load(s.toMe)
  }

  lemma {:induction false} LoadAppend(a: seq<Message>, b: seq<Message>)
    ensures Load(a + b) == Load(a) + Load(b)
  {
    if a == [] {
      assert a + b == b;
    } else {
      assert (a + b)[1..] == a[1..] + b;
      LoadAppend(a[1..], b);
    }
  }

  lemma {:induction false} SendingLightens(s: System, a: Action)
    requires Inv(s) && (a.DoFlush? || a.DoReset?) && Enabled(s, a)
    ensures TotalLoad(Act(s, a)) < TotalLoad(s)
  {
    LoadAppend(s.toPeer, [if a.DoFlush? then Flush(s.me).1 else StartReset(s.me).1]);
    assert s.me.Use() >= s.peer.Use();
  }

  lemma {:induction false} ReceivingKeepsSideLoads(s: System)
    requires Inv(s) && s.toMe != []
    ensures var me := Receive(s.me, s.toMe[0]).0;
            SideLoad(me, s.peer) + SideLoad(s.peer, me) <= SideLoad(s.me, s.peer) + SideLoad(s.peer, s.me)
  {
    if s.me.state.Closed? {
      assert s.me.Use() < s.peer.Use() && Reopen(s.me).Use() == s.peer.Use();
    }
  }

  lemma {:induction false} EmittedLoad(x: Side, m: Message)
    ensures Load(Receive(x, m).1) == if m.Reset? then 1 else 0
  {
  }

  lemma {:induction false} ReceivingLightens(s: System)
    requires Inv(s) && s.toMe != []
    ensures TotalLoad(Act(s, DoReceive)) < TotalLoad(s)
  {
    LoadAppend(s.toPeer, Receive(s.me, s.toMe[0]).1);
    EmittedLoad(s.me, s.toMe[0]);
    ReceivingKeepsSideLoads(s);
  }

  /** In every state that a run can reach, each step of the procedure leaves less to do. */
  lemma {:induction false} ProtocolMakesProgress(s: System, moves: seq<Move>, v: Move)
    requires Reachable(s, moves) && Protocol(v.action) && MoveEnabled(s, v)
    ensures TotalLoad(Step(s, v)) < TotalLoad(s)
  {
    ReachableInv(s, moves);
    ProtocolLightens(s, v);
  }

  lemma {:induction false} ProtocolLightens(s: System, v: Move)
    requires Inv(s) && Protocol(v.action) && MoveEnabled(s, v)
    ensures TotalLoad(Step(s, v)) < TotalLoad(s)
  {
    FlipKeepsInv(s);
    var from := if v.byPeer then Flip(s) else s;
    if v.action.DoReceive? {
      ReceivingLightens(from);
    } else {
      SendingLightens(from, v.action);
    }
  }

  /** And while a side is closing, some step of the procedure can be taken: closing never gets stuck. */
  lemma {:induction false} ClosingNeverStuck(s: System) returns (v: Move)
    requires Inv(s) && s.me.state.Closing?
    ensures Protocol(v.action) && MoveEnabled(s, v)
  {
    if CanFlush(s.me) {
      v := Move(false, DoFlush);
    } else if CanReset(s.me) {
      v := Move(false, DoReset);
    } else if s.toMe != [] {
      v := Move(false, DoReceive);
    } else if s.toPeer != [] {
      v := Move(true, DoReceive);
    } else {
      assert Together(s) && s.peer.resetReceived && s.me.resetAcked;
      v := Move(true, if s.peer.queue != [] then DoFlush else DoReset);
    }
  }

  /** The moves, all of them steps of the procedure, lead from `s` to `t`. */
  ghost predicate Leads(s: System, moves: seq<Move>, t: System)
    decreases |moves|
  {
    if moves == [] then s == t
    else Protocol(moves[0].action) && MoveEnabled(s, moves[0]) && Leads(Step(s, moves[0]), moves[1..], t)
  }

  lemma {:induction false} OwnStepGoesOn(s: System, a: Action)
    requires Inv(s) && s.me.state.Closing? && Protocol(a) && Enabled(s, a)
    ensures Act(s, a).peer == s.peer && Act(s, a).me.Use() == s.me.Use() && !Act(s, a).me.state.Open?
  {
  }

  lemma {:induction false} OtherStepGoesOn(s: System, a: Action)
    requires Inv(s) && s.peer.state.Closing? && Protocol(a) && Enabled(s, a)
    ensures Act(s, a).peer == s.peer && (s.me.Use() <= s.peer.Use() ==> Act(s, a).me.Use() <= s.peer.Use())
  {
  }

  /** A step of the procedure leaves a closing side closing or closed, and does not put its peer ahead of it. */
  lemma {:induction false} ClosingGoesOn(s: System, v: Move)
    requires Inv(s) && s.me.state.Closing? && Protocol(v.action) && MoveEnabled(s, v)
    ensures Inv(Step(s, v)) && Step(s, v).me.Use() == s.me.Use()
    ensures !Step(s, v).me.state.Open?
    ensures s.peer.Use() <= s.me.Use() ==> Step(s, v).peer.Use() <= s.me.Use()
  {
    StepKeepsInv(s, v);
    if v.byPeer {
      FlipKeepsInv(s);
      OtherStepGoesOn(Flip(s), v.action);
    } else {
      OwnStepGoesOn(s, v.action);
    }
  }

  /** The last acknowledgement closes the other side too. */
  lemma {:induction false} LastAck(s: System) returns (moves: seq<Move>, t: System)
    requires Inv(s) && s.me.state.Closed? && s.peer.Use() <= s.me.Use()
    ensures Leads(s, moves, t) && t.me == s.me && t.peer.state.Closed? && t.peer.Use() == s.me.Use()
  {
    if s.peer.state.Closed? {
      return [], s;
    }
    var v := Move(true, DoReceive);
    assert s.toPeer == [Ack(s.me.Use())];
    t := Step(s, v);
    moves := [v];
    assert Leads(t, moves[1..], t);
  }

  lemma {:induction false} Closes(s: System) returns (moves: seq<Move>, t: System)
    requires Inv(s) && s.me.state.Closing?
    ensures Leads(s, moves, t) && t.me.state.Closed? && t.me.Use() == s.me.Use()
    ensures s.peer.Use() <= s.me.Use() ==> t.peer.state.Closed? && t.peer.Use() == s.me.Use()
    decreases TotalLoad(s)
  {
    var v := ClosingNeverStuck(s);
    ClosingGoesOn(s, v);
    ProtocolLightens(s, v);
    var rest;
    if Step(s, v).me.state.Closing? {
      rest, t := Closes(Step(s, v));
    } else if s.peer.Use() <= s.me.Use() {
      rest, t := LastAck(Step(s, v));
    } else {
      rest, t := [], Step(s, v);
    }
    moves := [v] + rest;
    assert moves[1..] == rest;
  }

  /**
   From every state that a run can reach, steps of the procedure alone take a closing side to closed, in the same
   use of the id; and its peer too, unless the peer has already gone on to the next use.
   */
  lemma {:induction false} CloseCompletes(s: System, run: seq<Move>) returns (moves: seq<Move>, t: System)
    requires Reachable(s, run) && s.me.state.Closing?
    ensures Leads(s, moves, t) && t.me.state.Closed? && t.me.Use() == s.me.Use()
    ensures s.peer.Use() <= s.me.Use() ==> t.peer.state.Closed? && t.peer.Use() == s.me.Use()
  {
    ReachableInv(s, run);
    moves, t := Closes(s);
  }

  lemma {:induction false} LeadsKeepsInv(s: System, moves: seq<Move>, t: System)
    requires Inv(s) && Leads(s, moves, t)
    ensures Inv(t) && |moves| + TotalLoad(t) <= TotalLoad(s)
    decreases |moves|
  {
    if moves != [] {
      StepKeepsInv(s, moves[0]);
      ProtocolLightens(s, moves[0]);
      LeadsKeepsInv(Step(s, moves[0]), moves[1..], t);
    }
  }

  /**
   So in whatever order the steps are taken, without new calls by the applications they come to an end, and when
   no step is left neither side is still closing.
   */
  lemma {:induction false} EveryScheduleCloses(s: System, run: seq<Move>, moves: seq<Move>, t: System)
    requires Reachable(s, run) && Leads(s, moves, t)
    ensures |moves| <= TotalLoad(s)
    ensures (forall v: Move :: Protocol(v.action) ==> !MoveEnabled(t, v)) ==>
              !t.me.state.Closing? && !t.peer.state.Closing?
  {
    ReachableInv(s, run);
    LeadsKeepsInv(s, moves, t);
    if t.me.state.Closing? {
      var v := ClosingNeverStuck(t);
    } else if t.peer.state.Closing? {
      FlipKeepsInv(t);
      var v := ClosingNeverStuck(Flip(t));
      assert MoveEnabled(t, Move(!v.byPeer, v.action));
    }
  }

  // ---- A whole use of the id ----

  lemma {:induction false} LeadsReachable(s: System, run: seq<Move>, moves: seq<Move>, t: System)
    requires Reachable(s, run) && Leads(s, moves, t)
    ensures Reachable(t, run + moves)
    decreases |moves|
  {
    if moves == [] {
      assert run + moves == run;
    } else {
      ReachableStep(s, run, moves[0]);
      LeadsReachable(Step(s, moves[0]), run + [moves[0]], moves[1..], t);
      assert run + [moves[0]] + moves[1..] == run + moves;
    }
  }

  lemma {:induction false} LeadsSent(s: System, moves: seq<Move>, t: System, use: nat)
    requires Leads(s, moves, t)
    ensures SentIn(t.me, use) == SentIn(s.me, use)
    decreases |moves|
  {
    if moves != [] {
      StepSent(s, moves[0], false, use);
      LeadsSent(Step(s, moves[0]), moves[1..], t, use);
    }
  }

  /**
   Close on an open channel, followed by steps of the procedure alone, closes it in the same use of the id, and
   everything it had accepted has then arrived at the peer.
   */
  lemma {:induction false} CloseDelivers(s: System, run: seq<Move>) returns (moves: seq<Move>, t: System)
    requires Reachable(s, run) && s.me.state.Open?
    ensures Leads(Step(s, Move(false, DoClose)), moves, t) && Reachable(t, run + [Move(false, DoClose)] + moves)
    ensures t.me.state.Closed? && t.me.Use() == s.me.Use() <= t.peer.Use()
    ensures LogOf(t.peer, t.me.Use()).arrived == s.me.log.sent
  {
    var close := Move(false, DoClose);
    var closing := Step(s, close);
    ReachableStep(s, run, close);
    moves, t := CloseCompletes(closing, run + [close]);
    LeadsReachable(closing, run + [close], moves, t);
    LeadsSent(closing, moves, t, s.me.Use());
    FinishedUsesDelivered(t, run + [close] + moves, t.me.Use());
  }

  function Sends(payloads: seq<Payload>): seq<Move> {
    if payloads == [] then []
    else Sends(payloads[..|payloads| - 1]) + [Move(false, DoSend(payloads[|payloads| - 1]))]
  }

  lemma {:induction false} SendOne(s: System, run: seq<Move>, p: Payload) returns (t: System)
    requires Reachable(s, run) && s.me.state.Open?
    ensures Reachable(t, run + [Move(false, DoSend(p))]) && t.me.state.Open? && t.me.Use() == s.me.Use()
    ensures t.me.log.sent == s.me.log.sent + [p]
  {
    ReachableStep(s, run, Move(false, DoSend(p)));
    t := Step(s, Move(false, DoSend(p)));
  }

  lemma {:induction false} SendAll(s: System, run: seq<Move>, payloads: seq<Payload>) returns (t: System)
    requires Reachable(s, run) && s.me.state.Open?
    ensures Reachable(t, run + Sends(payloads)) && t.me.state.Open? && t.me.Use() == s.me.Use()
    ensures t.me.log.sent == s.me.log.sent + payloads
  {
    if payloads == [] {
      assert run + Sends(payloads) == run;
      t := s;
    } else {
      var front, last := payloads[..|payloads| - 1], payloads[|payloads| - 1];
      t := SendAll(s, run, front);
      t := SendOne(t, run + Sends(front), last);
      assert run + Sends(payloads) == run + Sends(front) + [Move(false, DoSend(last))];
      assert front + [last] == payloads;
    }
  }

  /**
   From every reachable state with a free id: opening a channel, sending any payloads and closing it again, followed
   by steps of the procedure alone, brings the peer exactly these payloads, in order, and frees the id again.
   */
  lemma {:induction false} WholeUseDelivers(s: System, run: seq<Move>, payloads: seq<Payload>)
    returns (moves: seq<Move>, t: System)
    requires Reachable(s, run) && s.me.state.Closed?
    ensures Reachable(t, run + [Move(false, DoReopen)] + Sends(payloads) + [Move(false, DoClose)] + moves)
    ensures forall i :: 0 <= i < |moves| ==> Protocol(moves[i].action)
    ensures t.me.state.Closed? && t.me.Use() == s.me.Use() + 1 <= t.peer.Use()
    ensures LogOf(t.peer, t.me.Use()).arrived == payloads
  {
    var open := Move(false, DoReopen);
    ReachableStep(s, run, open);
    var sent := SendAll(Step(s, open), run + [open], payloads);
    moves, t := CloseDelivers(sent, run + [open] + Sends(payloads));
    LeadsIsProtocol(Step(sent, Move(false, DoClose)), moves, t);
  }

  lemma {:induction false} LeadsIsProtocol(s: System, moves: seq<Move>, t: System)
    requires Leads(s, moves, t)
    ensures forall i :: 0 <= i < |moves| ==> Protocol(moves[i].action)
    decreases |moves|
  {
    if moves != [] {
      LeadsIsProtocol(Step(s, moves[0]), moves[1..], t);
      assert forall i :: 0 < i < |moves| ==> moves[i] == moves[1..][i - 1];
    }
  }
}
