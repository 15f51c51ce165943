/**
 The offer/answer states and the current and pending descriptions of api/peer_connection_interface.h,
 between two peers over ordered signalling. The question is what the two peers know of each other
 when both are stable and nothing is on its way.
 */
module OfferAnswer {
  import opened Common

  datatype SdpType = Offer | PrAnswer | Answer

  datatype Description = Description(kind: SdpType, sdp: nat)

  datatype SignalingState = Stable | HaveLocalOffer | HaveLocalPrAnswer | HaveRemoteOffer | HaveRemotePrAnswer

  /** `offerSent`: the pending local offer has been handed to the signalling. */
  datatype Peer = Peer(
    state: SignalingState,
    currentLocal: Option<Description>,
    currentRemote: Option<Description>,
    pendingLocal: Option<Description>,
    pendingRemote: Option<Description>,
    offerSent: bool,
    implicitRollback: bool)

  function NewPeer(implicitRollback: bool): Peer {
    Peer(Stable, None, None, None, None, false, implicitRollback)
  }

  function Rollback(p: Peer): Peer {
    p.(state := Stable, pendingLocal := None, pendingRemote := None, offerSent := false)
  }

  /** SetLocalDescription; None is an error, with no effect. */
  function SetLocal(p: Peer, d: Description): Option<Peer> {
    match d.kind
    case Offer =>
      if p.state.Stable? || p.state.HaveLocalOffer?
      then Some(p.(state := HaveLocalOffer, pendingLocal := Some(d), offerSent := false)) else None
    case PrAnswer =>
      if p.state.HaveRemoteOffer? || p.state.HaveLocalPrAnswer?
      then Some(p.(state := HaveLocalPrAnswer, pendingLocal := Some(d))) else None
    case Answer =>
      if p.state.HaveRemoteOffer? || p.state.HaveLocalPrAnswer?
      then Some(Rollback(p.(currentLocal := Some(d), currentRemote := p.pendingRemote))) else None
  }

  /** SetRemoteDescription; a remote offer may roll back the local one if that is configured. */
  function SetRemote(p: Peer, d: Description): Option<Peer> {
    match d.kind
    case Offer =>
      if p.state.Stable? || p.state.HaveRemoteOffer? || (p.state.HaveLocalOffer? && p.implicitRollback)
      then Some(Rollback(p).(state := HaveRemoteOffer, pendingRemote := Some(d))) else None
    case PrAnswer =>
      if p.state.HaveLocalOffer? || p.state.HaveRemotePrAnswer?
      then Some(p.(state := HaveRemotePrAnswer, pendingRemote := Some(d))) else None
    case Answer =>
      if p.state.HaveLocalOffer? || p.state.HaveRemotePrAnswer?
      then Some(Rollback(p.(currentLocal := p.pendingLocal, currentRemote := Some(d)))) else None
  }

  // ---- One peer, over any calls ----

  datatype Call = Local(description: Description) | Remote(description: Description) | RollBack

  /** A call that fails changes nothing. */
  function AfterCall(p: Peer, c: Call): Peer {
    match c
    case Local(d) => if SetLocal(p, d).Some? then SetLocal(p, d).value else p
    case Remote(d) => if SetRemote(p, d).Some? then SetRemote(p, d).value else p
    case RollBack => Rollback(p)
  }

  function AfterCalls(p: Peer, calls: seq<Call>): Peer {
    if calls == [] then p else AfterCall(AfterCalls(p, calls[..|calls| - 1]), calls[|calls| - 1])
  }

  predicate Is(d: Option<Description>, kind: SdpType) {
    d.Some? && d.value.kind == kind
  }

  /** Pending are exactly the descriptions of the exchange that the state says is incomplete. */
  predicate PendingFitsState(p: Peer) {
    match p.state
    case Stable => p.pendingLocal.None? && p.pendingRemote.None?
    case HaveLocalOffer => Is(p.pendingLocal, Offer) && p.pendingRemote.None?
    case HaveRemoteOffer => p.pendingLocal.None? && Is(p.pendingRemote, Offer)
    case HaveLocalPrAnswer => Is(p.pendingLocal, PrAnswer) && Is(p.pendingRemote, Offer)
    case HaveRemotePrAnswer => Is(p.pendingLocal, Offer) && Is(p.pendingRemote, PrAnswer)
  }

  /** The current descriptions are one finished exchange: an offer on one side, its answer on the other. */
  predicate CurrentIsExchange(p: Peer) {
    || (p.currentLocal.None? && p.currentRemote.None?)
    || (Is(p.currentLocal, Offer) && Is(p.currentRemote, Answer))
    || (Is(p.currentLocal, Answer) && Is(p.currentRemote, Offer))
  }

  lemma {:induction false} CallKeepsFit(p: Peer, c: Call)
    requires PendingFitsState(p) && CurrentIsExchange(p)
    ensures PendingFitsState(AfterCall(p, c)) && CurrentIsExchange(AfterCall(p, c))
  {
  }

  /** Whatever is called in whatever order, with descriptions of any kind. */
  lemma {:induction false} DescriptionsFitState(implicitRollback: bool, calls: seq<Call>)
    ensures var p := AfterCalls(NewPeer(implicitRollback), calls);
            PendingFitsState(p) && CurrentIsExchange(p)
  {
    if calls != [] {
      DescriptionsFitState(implicitRollback, calls[..|calls| - 1]);
      CallKeepsFit(AfterCalls(NewPeer(implicitRollback), calls[..|calls| - 1]), calls[|calls| - 1]);
    }
  }

  // ---- Two peers ----

  datatype System = System(me: Peer, peer: Peer, toPeer: seq<Description>, toMe: seq<Description>)

  function Initial(mine: bool, theirs: bool): System {
    System(NewPeer(mine), NewPeer(theirs), [], [])
  }

  function Flip(s: System): System {
    System(s.peer, s.me, s.toMe, s.toPeer)
  }

  /** The offer is set and sent in two steps; an answer is set and sent in one. */
  datatype Action = MakeOffer(sdp: nat) | SendOffer | Reply(answer: Description) | DoRollback | Receive

  predicate Enabled(s: System, a: Action) {
    match a
    case MakeOffer(sdp) => SetLocal(s.me, Description(Offer, sdp)).Some?
    case SendOffer => s.me.state.HaveLocalOffer? && !s.me.offerSent && s.me.pendingLocal.Some?
    case Reply(d) => !d.kind.Offer? && SetLocal(s.me, d).Some?
    case DoRollback => !s.me.state.Stable?
    case Receive => s.toMe != []
  }

  function Act(s: System, a: Action): System
    requires Enabled(s, a)
  {
    match a
    case MakeOffer(sdp) => s.(me := SetLocal(s.me, Description(Offer, sdp)).value)
    case SendOffer => s.(me := s.me.(offerSent := true), toPeer := s.toPeer + [s.me.pendingLocal.value])
    case Reply(d) => s.(me := SetLocal(s.me, d).value, toPeer := s.toPeer + [d])
    case DoRollback => s.(me := Rollback(s.me))
    case Receive =>
      var applied := SetRemote(s.me, s.toMe[0]);
      s.(me := if applied.Some? then applied.value else s.me, toMe := s.toMe[1..])
  }

  /** Leaves alone an offer that the other peer may already have: neither rolls it back nor replaces it. */
  predicate Disciplined(s: System, a: Action) {
    a.DoRollback? || a.MakeOffer? ==> !s.me.offerSent
  }

  /** What the peers' applications allow themselves with an offer already sent. */
  datatype Habits = Habits(rollBackSent: bool, replaceSent: bool)

  const Careful := Habits(false, false)

  predicate Permitted(s: System, a: Action, habits: Habits) {
    || Disciplined(s, a)
    || (a.DoRollback? && habits.rollBackSent)
    || (a.MakeOffer? && habits.replaceSent)
  }

  datatype Move = Move(byPeer: bool, action: Action)

  predicate MoveEnabled(s: System, v: Move) {
    Enabled(if v.byPeer then Flip(s) else s, v.action)
  }

  predicate MovePermitted(s: System, v: Move, habits: Habits) {
    Permitted(if v.byPeer then Flip(s) else s, v.action, habits)
  }

  function Step(s: System, v: Move): System
    requires MoveEnabled(s, v)
  {
    if v.byPeer then Flip(Act(Flip(s), v.action)) else Act(s, v.action)
  }

  /** The moves, each possible and permitted, lead from `s` to `t`. */
  ghost predicate Leads(s: System, moves: seq<Move>, t: System, habits: Habits := Careful)
    decreases |moves|
  {
    if moves == [] then s == t
    else
      && MoveEnabled(s, moves[0]) && MovePermitted(s, moves[0], habits)
      && Leads(Step(s, moves[0]), moves[1..], t, habits)
  }

  predicate Quiescent(s: System) {
    s.me.state.Stable? && s.peer.state.Stable? && s.toMe == [] && s.toPeer == []
  }

  /** Each peer's current descriptions are the other's, the other way round. */
  predicate Agree(x: Peer, y: Peer) {
    x.currentLocal == y.currentRemote && x.currentRemote == y.currentLocal
  }

  predicate NothingPending(p: Peer) {
    p.pendingLocal.None? && p.pendingRemote.None?
  }

  // ---- The invariant ----

  /** Nothing that the other peer knows of is pending. */
  predicate Free(p: Peer) {
    && !p.offerSent && p.pendingRemote.None?
    && ((p.state.Stable? && p.pendingLocal.None?) || (p.state.HaveLocalOffer? && Is(p.pendingLocal, Offer)))
  }

  /** Has sent an offer and has not seen the answer. */
  predicate Waiting(p: Peer) {
    && p.offerSent && Is(p.pendingLocal, Offer)
    && ((p.state.HaveLocalOffer? && p.pendingRemote.None?) || p.state.HaveRemotePrAnswer?)
  }

  /** Has accepted an offer and not answered it. */
  predicate Asked(p: Peer) {
    !p.offerSent && p.pendingRemote.Some? && (p.state.HaveRemoteOffer? || p.state.HaveLocalPrAnswer?)
  }

  predicate NoAnswers(ds: seq<Description>) {
    forall i :: 0 <= i < |ds| ==> !ds[i].kind.Answer?
  }

  /** Nothing here ends the exchange of a waiting peer: it refuses offers unless it rolls back for them. */
  predicate Harmless(p: Peer, ds: seq<Description>) {
    forall i :: 0 <= i < |ds| ==> ds[i].kind.PrAnswer? || (ds[i].kind.Offer? && !p.implicitRollback)
  }

  ghost predicate Idle(s: System) {
    Free(s.me) && Free(s.peer) && s.toPeer == [] && s.toMe == [] && Agree(s.me, s.peer)
  }

  /** My offer is on its way. */
  ghost predicate InFlight(s: System) {
    && Waiting(s.me) && s.me.state.HaveLocalOffer? && Free(s.peer) && Agree(s.me, s.peer)
    && s.toPeer == [s.me.pendingLocal.value] && s.toMe == []
  }

  /** The peer has my offer. */
  ghost predicate Held(s: System) {
    && Waiting(s.me) && Asked(s.peer) && Agree(s.me, s.peer) && s.peer.pendingRemote == s.me.pendingLocal
    && s.toPeer == [] && Harmless(s.me, s.toMe)
  }

  /** The peer has answered my offer, and perhaps made one of its own since. */
  ghost predicate Answered(s: System, k: nat) {
    && Waiting(s.me) && s.toPeer == [] && k < |s.toMe| && Harmless(s.me, s.toMe[..k]) && s.toMe[k].kind.Answer?
    && s.peer.currentRemote == s.me.pendingLocal && s.peer.currentLocal == Some(s.toMe[k])
    && if |s.toMe| == k + 1 then Free(s.peer)
       else Waiting(s.peer) && s.peer.state.HaveLocalOffer? && s.toMe[k + 1..] == [s.peer.pendingLocal.value]
  }

  /** The peer has dropped my offer. */
  ghost predicate Dropped(s: System) {
    && Waiting(s.me) && Free(s.peer) && Agree(s.me, s.peer)
    && s.toPeer == [] && Harmless(s.me, s.toMe)
  }

  /** Both peers have sent offers. One that rolls back implicitly has at most the other's offer coming, last. */
  ghost predicate Glare(s: System) {
    && Waiting(s.me) && Waiting(s.peer) && Agree(s.me, s.peer)
    && Colliding(s.me, s.peer, s.toMe) && Colliding(s.peer, s.me, s.toPeer)
  }

  predicate Colliding(x: Peer, y: Peer, toX: seq<Description>) {
    && NoAnswers(toX)
    && (x.implicitRollback ==> forall i :: 0 <= i < |toX| && toX[i].kind.Offer? ==>
                                             i == |toX| - 1 && Some(toX[i]) == y.pendingLocal)
  }

  ghost predicate Asking(s: System) {
    InFlight(s) || Held(s) || Dropped(s) || exists k: nat :: Answered(s, k)
  }

  ghost predicate Inv(s: System) {
    && !(s.me.implicitRollback && s.peer.implicitRollback)
    && (Idle(s) || Glare(s) || Asking(s) || Asking(Flip(s)))
  }

  // ---- Every disciplined step keeps it ----

  lemma {:induction false} IdleKept(s: System, a: Action)
    requires Idle(s) && Enabled(s, a) && Disciplined(s, a) && Inv(s)
    ensures Inv(Act(s, a))
  {
  }

  lemma {:induction false} GlareKept(s: System, a: Action)
    requires Glare(s) && Enabled(s, a) && Disciplined(s, a) && Inv(s)
    ensures Inv(Act(s, a))
  {
    var s' := Act(s, a);
    if a.Receive? {
      if s.toMe[0].kind.Offer? && SetRemote(s.me, s.toMe[0]).Some? {
        assert Held(Flip(s'));
      } else {
        assert Glare(s');
      }
    }
  }

  lemma {:induction false} AskerKept(s: System, a: Action)
    requires Asking(s) && Enabled(s, a) && Disciplined(s, a) && Inv(s)
    ensures Inv(Act(s, a))
  {
    var s' := Act(s, a);
    if a.Receive? {
      if Held(s) {
        assert Held(s');
      } else if Dropped(s) {
        assert Dropped(s');
      } else {
        var k: nat :| Answered(s, k);
        AnswerReceived(s, k);
      }
    }
  }

  lemma {:induction false} AnswerReceived(s: System, k: nat)
    requires Answered(s, k) && Inv(s)
    ensures Inv(Act(s, Receive))
  {
    var s' := Act(s, Receive);
    if k > 0 {
      assert s.toMe[..k][0] == s.toMe[0];
      assert s'.toMe[..k - 1] == s.toMe[..k][1..];
      assert s'.toMe[k..] == s.toMe[k + 1..];
      assert Answered(s', k - 1);
    } else if |s.toMe| == 1 {
      assert Idle(s');
    } else {
      assert InFlight(Flip(s'));
    }
  }

  /** The peer that was asked acts. */
  lemma {:induction false} AskedKept(s: System, a: Action)
    requires Asking(Flip(s)) && Enabled(s, a) && Disciplined(s, a) && Inv(s)
    ensures Inv(Act(s, a))
  {
    var s' := Act(s, a);
    if InFlight(Flip(s)) {
      InFlightToMe(s, a);
    } else if Held(Flip(s)) {
      HeldByMe(s, a);
    } else if Dropped(Flip(s)) {
      if a.SendOffer? {
        assert Glare(s');
      } else {
        assert Dropped(Flip(s'));
      }
    } else {
      var k: nat :| Answered(Flip(s), k);
      if a.SendOffer? {
        assert s'.toPeer[..k] == s.toPeer[..k];
        assert s'.toPeer[k + 1..] == [s.me.pendingLocal.value];
      }
      assert Answered(Flip(s'), k);
    }
  }

  lemma {:induction false} InFlightToMe(s: System, a: Action)
    requires InFlight(Flip(s)) && Enabled(s, a) && Disciplined(s, a) && Inv(s)
    ensures Inv(Act(s, a))
  {
  }

  lemma {:induction false} HeldByMe(s: System, a: Action)
    requires Held(Flip(s)) && Enabled(s, a) && Disciplined(s, a) && Inv(s)
    ensures Inv(Act(s, a))
  {
    var s' := Act(s, a);
    if a.Reply? {
      if a.answer.kind.Answer? {
        assert s'.toPeer[..|s.toPeer|] == s.toPeer;
        assert Answered(Flip(s'), |s.toPeer|);
      } else {
        assert Held(Flip(s'));
      }
    } else {
      assert Dropped(Flip(s'));
    }
  }

  lemma {:induction false} ActKeepsInv(s: System, a: Action)
    requires Inv(s) && Enabled(s, a) && Disciplined(s, a)
    ensures Inv(Act(s, a))
  {
    if Idle(s) {
      IdleKept(s, a);
    } else if Glare(s) {
      GlareKept(s, a);
    } else if Asking(s) {
      AskerKept(s, a);
    } else {
      AskedKept(s, a);
    }
  }

  lemma {:induction false} FlipKeepsInv(s: System)
    requires Inv(s)
    ensures Inv(Flip(s))
  {
  }

  lemma {:induction false} RunKeepsInv(s: System, moves: seq<Move>, t: System)
    requires Inv(s) && Leads(s, moves, t)
    ensures Inv(t)
    decreases |moves|
  {
    if moves != [] {
      var v := moves[0];
      if v.byPeer {
        FlipKeepsInv(s);
        ActKeepsInv(Flip(s), v.action);
        FlipKeepsInv(Act(Flip(s), v.action));
      } else {
        ActKeepsInv(s, v.action);
      }
      RunKeepsInv(Step(s, v), moves[1..], t);
    }
  }

  /**
   When both peers are stable and nothing is on its way, each peer's current descriptions are the other's and
   nothing is pending, in every run of peers that leave sent offers alone and do not both roll back implicitly.
   */
  lemma {:induction false} QuiescentPeersAgree(mine: bool, theirs: bool, moves: seq<Move>, t: System)
    requires !(mine && theirs) && Leads(Initial(mine, theirs), moves, t) && Quiescent(t)
    ensures Agree(t.me, t.peer) && NothingPending(t.me) && NothingPending(t.peer)
  {
    assert Idle(Initial(mine, theirs));
    RunKeepsInv(Initial(mine, theirs), moves, t);
  }

  // ---- Where it fails ----

  lemma {:induction false} Prepend(s: System, v: Move, rest: seq<Move>, t: System, habits: Habits)
    requires MoveEnabled(s, v) && MovePermitted(s, v, habits) && Leads(Step(s, v), rest, t, habits)
    ensures Leads(s, [v] + rest, t, habits)
  {
  }

  lemma {:induction false} Append(s: System, moves: seq<Move>, t: System, v: Move, habits: Habits)
    requires Leads(s, moves, t, habits) && MoveEnabled(t, v) && MovePermitted(t, v, habits)
    ensures Leads(s, moves + [v], Step(t, v), habits)
    decreases |moves|
  {
    if moves == [] {
      Prepend(s, v, [], Step(t, v), habits);
      assert moves + [v] == [v] + [];
    } else {
      Append(Step(s, moves[0]), moves[1..], t, v, habits);
      assert (moves + [v])[1..] == moves[1..] + [v];
    }
  }

  /** Both peers have made and sent an offer, from the start. */
  lemma {:induction false} BothOffer(mine: bool, theirs: bool) returns (moves: seq<Move>, t: System)
    ensures Leads(Initial(mine, theirs), moves, t)
    ensures var o1, o2 := Description(Offer, 1), Description(Offer, 2);
            t == System(NewPeer(mine).(state := HaveLocalOffer, pendingLocal := Some(o1), offerSent := true),
                        NewPeer(theirs).(state := HaveLocalOffer, pendingLocal := Some(o2), offerSent := true),
                        [o1], [o2])
  {
    moves, t := [], Initial(mine, theirs);
    moves, t := Extend(Initial(mine, theirs), moves, t, Move(false, MakeOffer(1)), Careful);
    moves, t := Extend(Initial(mine, theirs), moves, t, Move(false, SendOffer), Careful);
    moves, t := Extend(Initial(mine, theirs), moves, t, Move(true, MakeOffer(2)), Careful);
    moves, t := Extend(Initial(mine, theirs), moves, t, Move(true, SendOffer), Careful);
  }

  lemma {:induction false} Extend(start: System, moves: seq<Move>, s: System, v: Move, habits: Habits)
    returns (longer: seq<Move>, t: System)
    requires Leads(start, moves, s, habits) && MoveEnabled(s, v) && MovePermitted(s, v, habits)
    ensures Leads(start, longer, t, habits) && t == Step(s, v)
  {
    Append(start, moves, s, v, habits);
    longer, t := moves + [v], Step(s, v);
  }

  /** Then each rolls back for the other's offer. */
  lemma {:induction false} BothRollBack() returns (moves: seq<Move>, t: System)
    ensures Leads(Initial(true, true), moves, t)
    ensures t == System(NewPeer(true).(state := HaveRemoteOffer, pendingRemote := Some(Description(Offer, 2))),
                        NewPeer(true).(state := HaveRemoteOffer, pendingRemote := Some(Description(Offer, 1))), [], [])
  {
    moves, t := BothOffer(true, true);
    moves, t := Extend(Initial(true, true), moves, t, Move(false, Receive), Careful);
    moves, t := Extend(Initial(true, true), moves, t, Move(true, Receive), Careful);
  }

  /** If both roll back for each other's offer, each answers the other and both answers are refused. */
  lemma {:induction false} BothRollingBackDisagree() returns (moves: seq<Move>, t: System)
    ensures Leads(Initial(true, true), moves, t) && Quiescent(t) && !Agree(t.me, t.peer)
  {
    moves, t := BothRollBack();
    moves, t := Extend(Initial(true, true), moves, t, Move(false, Reply(Description(Answer, 3))), Careful);
    moves, t := Extend(Initial(true, true), moves, t, Move(true, Reply(Description(Answer, 4))), Careful);
    moves, t := Extend(Initial(true, true), moves, t, Move(false, Receive), Careful);
    moves, t := Extend(Initial(true, true), moves, t, Move(true, Receive), Careful);
  }

  lemma {:induction false} RolledBackInFlight(mine: bool, theirs: bool) returns (moves: seq<Move>, t: System)
    ensures Leads(Initial(mine, theirs), moves, t, Habits(true, false))
    ensures t == Initial(mine, theirs).(toPeer := [Description(Offer, 1)])
  {
    moves, t := [], Initial(mine, theirs);
    moves, t := Extend(Initial(mine, theirs), moves, t, Move(false, MakeOffer(1)), Habits(true, false));
    moves, t := Extend(Initial(mine, theirs), moves, t, Move(false, SendOffer), Habits(true, false));
    moves, t := Extend(Initial(mine, theirs), moves, t, Move(false, DoRollback), Habits(true, false));
  }

  /** Explicitly rolling back an offer that has been sent breaks agreement without any collision. */
  lemma {:induction false} RollbackOfSentOfferDisagrees(mine: bool, theirs: bool) returns (moves: seq<Move>, t: System)
    ensures Leads(Initial(mine, theirs), moves, t, Habits(true, false)) && Quiescent(t) && !Agree(t.me, t.peer)
  {
    moves, t := RolledBackInFlight(mine, theirs);
    moves, t := Extend(Initial(mine, theirs), moves, t, Move(true, Receive), Habits(true, false));
    moves, t := Extend(Initial(mine, theirs), moves, t, Move(true, Reply(Description(Answer, 2))), Habits(true, false));
    moves, t := Extend(Initial(mine, theirs), moves, t, Move(false, Receive), Habits(true, false));
  }

  lemma {:induction false} ReplacedAfterReceipt(mine: bool, theirs: bool) returns (moves: seq<Move>, t: System)
    ensures Leads(Initial(mine, theirs), moves, t, Habits(false, true))
    ensures var o1, o2 := Description(Offer, 1), Description(Offer, 2);
            t == System(NewPeer(mine).(state := HaveLocalOffer, pendingLocal := Some(o2)),
                        NewPeer(theirs).(state := HaveRemoteOffer, pendingRemote := Some(o1)), [], [])
  {
    moves, t := [], Initial(mine, theirs);
    moves, t := Extend(Initial(mine, theirs), moves, t, Move(false, MakeOffer(1)), Habits(false, true));
    moves, t := Extend(Initial(mine, theirs), moves, t, Move(false, SendOffer), Habits(false, true));
    moves, t := Extend(Initial(mine, theirs), moves, t, Move(true, Receive), Habits(false, true));
    moves, t := Extend(Initial(mine, theirs), moves, t, Move(false, MakeOffer(2)), Habits(false, true));
  }

  /** So does replacing it by another offer: the answer to the first offer is taken for one to the second. */
  lemma {:induction false} ReplacedOfferDisagrees(mine: bool, theirs: bool) returns (moves: seq<Move>, t: System)
    ensures Leads(Initial(mine, theirs), moves, t, Habits(false, true)) && Quiescent(t) && !Agree(t.me, t.peer)
  {
    moves, t := ReplacedAfterReceipt(mine, theirs);
    moves, t := Extend(Initial(mine, theirs), moves, t, Move(true, Reply(Description(Answer, 3))), Habits(false, true));
    moves, t := Extend(Initial(mine, theirs), moves, t, Move(false, Receive), Habits(false, true));
  }

  // ---- Exactly when ----

  /** Some run of two new peers ends in `t`. */
  ghost predicate Reaches(mine: bool, theirs: bool, habits: Habits, moves: seq<Move>, t: System) {
    Leads(Initial(mine, theirs), moves, t, habits)
  }

  predicate AtLeast(more: Habits, habits: Habits) {
    (habits.rollBackSent ==> more.rollBackSent) && (habits.replaceSent ==> more.replaceSent)
  }

  lemma {:induction false} LeadsWithMore(s: System, moves: seq<Move>, t: System, habits: Habits, more: Habits)
    requires Leads(s, moves, t, habits) && AtLeast(more, habits)
    ensures Leads(s, moves, t, more)
    decreases |moves|
  {
    if moves != [] {
      LeadsWithMore(Step(s, moves[0]), moves[1..], t, habits, more);
    }
  }

  /**
   Quiescent peers agree in every run, whatever collides, exactly if not both roll back implicitly and an offer
   already sent is neither rolled back explicitly nor replaced.
   */
  lemma {:induction false} AgreementExactly(mine: bool, theirs: bool, habits: Habits)
    ensures (forall moves, t :: Reaches(mine, theirs, habits, moves, t) && Quiescent(t) ==> Agree(t.me, t.peer))
       <==> !(mine && theirs) && habits == Careful
  {
    if habits == Careful && !(mine && theirs) {
      forall moves, t | Reaches(mine, theirs, habits, moves, t) && Quiescent(t) ensures Agree(t.me, t.peer) {
        QuiescentPeersAgree(mine, theirs, moves, t);
      }
    } else {
      var moves, t, some;
      if habits.rollBackSent {
        some := Habits(true, false);
        moves, t := RollbackOfSentOfferDisagrees(mine, theirs);
      } else if habits.replaceSent {
        some := Habits(false, true);
        moves, t := ReplacedOfferDisagrees(mine, theirs);
      } else {
        some := Careful;
        moves, t := BothRollingBackDisagree();
      }
      LeadsWithMore(Initial(mine, theirs), moves, t, some, habits);
      assert Reaches(mine, theirs, habits, moves, t);
    }
  }

  /**
   I have made an offer and the peer has it; the provisional answers so far have arrived, the last one being
   `provisional`. Nothing but the exchange has changed since `s`.
   */
  predicate AtStage(s: System, t: System, offer: Description, provisional: Option<Description>) {
    && t.me == s.me.(state := if provisional.Some? then HaveRemotePrAnswer else HaveLocalOffer,
                     pendingLocal := Some(offer), pendingRemote := provisional, offerSent := true)
    && t.peer == s.peer.(state := if provisional.Some? then HaveLocalPrAnswer else HaveRemoteOffer,
                         pendingLocal := provisional, pendingRemote := Some(offer))
    && t.toPeer == [] && t.toMe == []
  }

  predicate ReadyForExchange(s: System) {
    Quiescent(s) && NothingPending(s.me) && NothingPending(s.peer) && !s.me.offerSent && !s.peer.offerSent
  }

  lemma {:induction false} OfferArrives(s: System, offer: nat) returns (moves: seq<Move>, t: System)
    requires ReadyForExchange(s)
    ensures Leads(s, moves, t) && AtStage(s, t, Description(Offer, offer), None)
  {
    moves, t := [], s;
    moves, t := Extend(s, moves, t, Move(false, MakeOffer(offer)), Careful);
    moves, t := Extend(s, moves, t, Move(false, SendOffer), Careful);
    moves, t := Extend(s, moves, t, Move(true, Receive), Careful);
  }

  /** Any number of provisional answers go through, each one replacing the one before on both sides. */
  lemma {:induction false} ProvisionalAnswersArrive(s: System, offer: nat, provisional: seq<nat>)
    returns (moves: seq<Move>, t: System)
    requires ReadyForExchange(s)
    ensures Leads(s, moves, t)
    ensures AtStage(s, t, Description(Offer, offer),
                    if provisional == [] then None
                    else Some(Description(PrAnswer, provisional[|provisional| - 1])))
  {
    if provisional == [] {
      moves, t := OfferArrives(s, offer);
    } else {
      var last := Description(PrAnswer, provisional[|provisional| - 1]);
      moves, t := ProvisionalAnswersArrive(s, offer, provisional[..|provisional| - 1]);
      moves, t := Extend(s, moves, t, Move(true, Reply(last)), Careful);
      moves, t := Extend(s, moves, t, Move(false, Receive), Careful);
    }
  }

  /**
   From any quiescent state an exchange with any number of provisional answers goes through; both peers then hold
   its offer and its final answer, and are ready for the next.
   */
  lemma {:induction false} ExchangeCompletes(s: System, offer: nat, provisional: seq<nat>, answer: nat)
    returns (moves: seq<Move>, t: System)
    requires ReadyForExchange(s)
    ensures Leads(s, moves, t) && ReadyForExchange(t) && Agree(t.me, t.peer)
    ensures t.me.currentLocal == Some(Description(Offer, offer))
    ensures t.me.currentRemote == Some(Description(Answer, answer))
  {
    moves, t := ProvisionalAnswersArrive(s, offer, provisional);
    moves, t := Extend(s, moves, t, Move(true, Reply(Description(Answer, answer))), Careful);
    moves, t := Extend(s, moves, t, Move(false, Receive), Careful);
  }

  // ---- The peer connection itself ----

  class PeerConnection {
    var signalingState: SignalingState
    var currentLocalDescription: Option<Description>
    var currentRemoteDescription: Option<Description>
    var pendingLocalDescription: Option<Description>
    var pendingRemoteDescription: Option<Description>
    var offerSent: bool
    const enableImplicitRollback: bool

    ghost function State(): Peer
      reads this
    {
      Peer(signalingState, currentLocalDescription, currentRemoteDescription,
           pendingLocalDescription, pendingRemoteDescription, offerSent, enableImplicitRollback)
    }

    constructor (enableImplicitRollback: bool)
      ensures State() == NewPeer(enableImplicitRollback)
    {
      this.enableImplicitRollback := enableImplicitRollback;
      signalingState, offerSent := Stable, false;
      currentLocalDescription, currentRemoteDescription := None, None;
      pendingLocalDescription, pendingRemoteDescription := None, None;
    }

    method SetLocalDescription(d: Description) returns (ok: bool)
      modifies this
      ensures ok <==> if d.kind.Offer? then old(signalingState) in {Stable, HaveLocalOffer}
                      else old(signalingState) in {HaveRemoteOffer, HaveLocalPrAnswer}
      ensures !ok ==> unchanged(this)
      ensures ok && d.kind.Offer? ==>
                && signalingState == HaveLocalOffer && pendingLocalDescription == Some(d)
                && unchanged(`pendingRemoteDescription, `currentLocalDescription, `currentRemoteDescription)
      ensures ok && d.kind.PrAnswer? ==>
                && signalingState == HaveLocalPrAnswer && pendingLocalDescription == Some(d)
                && unchanged(`pendingRemoteDescription, `currentLocalDescription, `currentRemoteDescription)
      ensures ok && d.kind.Answer? ==>
                && signalingState == Stable && pendingLocalDescription == None && pendingRemoteDescription == None
                && currentLocalDescription == Some(d) && currentRemoteDescription == old(pendingRemoteDescription)
      ensures ok <==> SetLocal(old(State()), d).Some?
      ensures State() == if ok then SetLocal(old(State()), d).value else old(State())
    {
      var answering := signalingState.HaveRemoteOffer? || signalingState.HaveLocalPrAnswer?;
      if d.kind.Offer? {
        if !signalingState.Stable? && !signalingState.HaveLocalOffer? {
          return false;
        }
        pendingLocalDescription, signalingState, offerSent := Some(d), HaveLocalOffer, false;
      } else if !answering {
        return false;
      } else if d.kind.PrAnswer? {
        pendingLocalDescription, signalingState := Some(d), HaveLocalPrAnswer;
      } else {
        currentLocalDescription, currentRemoteDescription := Some(d), pendingRemoteDescription;
        DropPending();
      }
      return true;
    }

    method SetRemoteDescription(d: Description) returns (ok: bool)
      modifies this
      ensures ok <==> if d.kind.Offer?
                      then old(signalingState) in {Stable, HaveRemoteOffer}
                           || (old(signalingState) == HaveLocalOffer && enableImplicitRollback)
                      else old(signalingState) in {HaveLocalOffer, HaveRemotePrAnswer}
      ensures !ok ==> unchanged(this)
      ensures ok && d.kind.Offer? ==>
                && signalingState == HaveRemoteOffer && pendingRemoteDescription == Some(d)
                && pendingLocalDescription == None && unchanged(`currentLocalDescription, `currentRemoteDescription)
      ensures ok && d.kind.PrAnswer? ==>
                && signalingState == HaveRemotePrAnswer && pendingRemoteDescription == Some(d)
                && unchanged(`pendingLocalDescription, `currentLocalDescription, `currentRemoteDescription)
      ensures ok && d.kind.Answer? ==>
                && signalingState == Stable && pendingLocalDescription == None && pendingRemoteDescription == None
                && currentLocalDescription == old(pendingLocalDescription) && currentRemoteDescription == Some(d)
      ensures ok <==> SetRemote(old(State()), d).Some?
      ensures State() == if ok then SetRemote(old(State()), d).value else old(State())
    {
      var awaiting := signalingState.HaveLocalOffer? || signalingState.HaveRemotePrAnswer?;
      if d.kind.Offer? {
        if signalingState.HaveLocalOffer? && !enableImplicitRollback {
          return false;
        }
        if signalingState.HaveLocalPrAnswer? || signalingState.HaveRemotePrAnswer? {
          return false;
        }
        DropPending();
        pendingRemoteDescription, signalingState := Some(d), HaveRemoteOffer;
      } else if !awaiting {
        return false;
      } else if d.kind.PrAnswer? {
        pendingRemoteDescription, signalingState := Some(d), HaveRemotePrAnswer;
      } else {
        currentLocalDescription, currentRemoteDescription := pendingLocalDescription, Some(d);
        DropPending();
      }
      return true;
    }

    /** Abandons an exchange that is under way. */
    method DropPending()
      modifies this
      ensures signalingState == Stable && pendingLocalDescription == None && pendingRemoteDescription == None
      ensures unchanged(`currentLocalDescription, `currentRemoteDescription)
      ensures State() == Rollback(old(State()))
    {
      pendingLocalDescription, pendingRemoteDescription := None, None;
      signalingState, offerSent := Stable, false;
    }
  }
}
