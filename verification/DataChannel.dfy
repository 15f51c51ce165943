/** Classes DataChannel and DataChannel::PacketQueue of pc/data_channel.h, as far as sending and closing go. */
module DataChannels {
  import opened C = DataChannelClose

  function Bytes(packets: seq<Payload>): nat {
    if packets == [] then 0 else |packets[0]| + Bytes(packets[1..])
  }

  lemma {:induction false} BytesAppend(a: seq<Payload>, b: seq<Payload>)
    ensures Bytes(a + b) == Bytes(a) + Bytes(b)
  {
    if a == [] {
      assert a + b == b;
    } else {
      assert (a + b)[1..] == a[1..] + b;
      BytesAppend(a[1..], b);
    }
  }

  /** Packets waiting to be handed on, oldest first, with their total size. */
  class PacketQueue {
    var packets: seq<Payload>
    var byteCount: nat

    ghost predicate Valid()
      reads this
    {
      byteCount == Bytes(packets)
    }

    constructor ()
      ensures Valid() && packets == []
    {
      packets, byteCount := [], 0;
    }

    method PopFront() returns (packet: Payload)
      requires Valid() && packets != []
      modifies this
      ensures Valid() && [packet] + packets == old(packets)
    {
      packet := packets[0];
      byteCount := byteCount - |packet|;
      packets := packets[1..];
    }

    method PushFront(packet: Payload)
      requires Valid()
      modifies this
      ensures Valid() && packets == [packet] + old(packets)
    {
      packets := [packet] + packets;
      byteCount := byteCount + |packet|;
    }

    method PushBack(packet: Payload)
      requires Valid()
      modifies this
      ensures Valid() && packets == old(packets) + [packet]
    {
      BytesAppend(packets, [packet]);
      packets := packets + [packet];
      byteCount := byteCount + |packet|;
    }

    method Clear()
      modifies this
      ensures Valid() && packets == []
    {
      packets, byteCount := [], 0;
    }

    method Swap(other: PacketQueue)
      requires Valid() && other.Valid()
      modifies this, other
      ensures Valid() && other.Valid() && packets == old(other.packets) && other.packets == old(packets)
    {
      packets, other.packets := other.packets, packets;
      byteCount, other.byteCount := other.byteCount, byteCount;
    }
  }

  /** `n` steps of the closing procedure's Flush. */
  ghost function FlushMany(s: Side, n: nat): Side
    requires n <= |s.queue|
  {
    s.(queue := s.queue[n..])
  }

  /** Flushing n + 1 packets is flushing n and then one more. */
  lemma {:induction false} FlushManyIsRepeated(s: Side, n: nat)
    requires n < |s.queue| && !s.state.Closed? && !s.resetSent
    ensures CanFlush(FlushMany(s, n))
    ensures Flush(FlushMany(s, n)) == (FlushMany(s, n + 1), Data(s.Use(), s.queue[n]))
  {
  }

  function Flushes(n: nat): seq<Move> {
    if n == 0 then [] else Flushes(n - 1) + [Move(false, DoFlush)]
  }

  /**
   Whatever the peer and the stream look like, handing `emitted` to the stream while the side goes from `before` to
   `after` is as many sending moves of the closing procedure.
   */
  ghost predicate SentByFlushes(before: Side, after: Side, emitted: seq<Message>) {
    forall s: System :: s.me == before ==>
                          Leads(s, Flushes(|emitted|), s.(me := after, toPeer := s.toPeer + emitted))
  }

  ghost function QueuedMessages(s: Side, n: nat): (ms: seq<Message>)
    requires n <= |s.queue|
    ensures |ms| == n && forall i :: 0 <= i < n ==> ms[i] == Data(s.Use(), s.queue[i])
  {
    seq(n, i requires 0 <= i < n => Data(s.Use(), s.queue[i]))
  }

  lemma {:induction false} LeadsSnoc(s: System, moves: seq<Move>, t: System, v: Move)
    requires Leads(s, moves, t) && Protocol(v.action) && MoveEnabled(t, v)
    ensures Leads(s, moves + [v], Step(t, v))
    decreases |moves|
  {
    if moves == [] {
      assert Leads(Step(s, v), [v][1..], Step(t, v));
    } else {
      assert (moves + [v])[1..] == moves[1..] + [v];
      LeadsSnoc(Step(s, moves[0]), moves[1..], t, v);
    }
  }

  lemma {:induction false} FlushManyLeads(s: System, n: nat)
    requires n <= |s.me.queue| && (n > 0 ==> !s.me.state.Closed? && !s.me.resetSent)
    ensures Leads(s, Flushes(n), s.(me := FlushMany(s.me, n), toPeer := s.toPeer + QueuedMessages(s.me, n)))
  {
    var t := s.(me := FlushMany(s.me, n), toPeer := s.toPeer + QueuedMessages(s.me, n));
    if n == 0 {
      assert t == s;
    } else {
      var t' := s.(me := FlushMany(s.me, n - 1), toPeer := s.toPeer + QueuedMessages(s.me, n - 1));
      FlushManyLeads(s, n - 1);
      FlushManyIsRepeated(s.me, n - 1);
      assert QueuedMessages(s.me, n) == QueuedMessages(s.me, n - 1) + [Data(s.me.Use(), s.me.queue[n - 1])];
      assert Step(t', Move(false, DoFlush)) == t;
      LeadsSnoc(s, Flushes(n - 1), t', Move(false, DoFlush));
    }
  }

  lemma {:induction false} FlushManyIsSent(before: Side, emitted: seq<Message>)
    requires |emitted| <= |before.queue|
    requires before.queue != [] ==> !before.state.Closed? && !before.resetSent
    requires forall i :: 0 <= i < |emitted| ==> emitted[i] == Data(before.Use(), before.queue[i])
    ensures SentByFlushes(before, FlushMany(before, |emitted|), emitted)
  {
    assert emitted == QueuedMessages(before, |emitted|);
    forall s: System | s.me == before
      ensures Leads(s, Flushes(|emitted|), s.(me := FlushMany(before, |emitted|), toPeer := s.toPeer + emitted))
    {
      FlushManyLeads(s, |emitted|);
    }
  }

  class DataChannel {
    var state: State
    var queuedSendData: PacketQueue
    var startedClosingProcedure: bool
    var resetAcked: bool
    var resetReceived: bool
    var bytesSent: nat
    const use: nat          // how often the stream id had been used before
    ghost var log: Log
    ghost const past: seq<Log>

    ghost function Side(): Side
      reads this, queuedSendData
    {
      C.Side(state, queuedSendData.packets, startedClosingProcedure, resetAcked, resetReceived, log, past)
    }

    ghost predicate Valid()
      reads this, queuedSendData
    {
      && queuedSendData.Valid() && |past| == use
      && (startedClosingProcedure ==> state.Closing? && queuedSendData.packets == [])
      && (state.Closed? ==> queuedSendData.packets == [] && !startedClosingProcedure)
      && bytesSent + queuedSendData.byteCount == Bytes(log.sent)
    }

    /** A channel on a free id, whose last use was `previous`. */
    constructor (use: nat, ghost previous: Side)
      requires previous.state.Closed? && use == previous.Use() + 1
      ensures Valid() && fresh(queuedSendData) && Side() == Reopen(previous)
      ensures state == Open && queuedSendData.packets == [] && log == Log([], []) && this.use == use
      ensures !startedClosingProcedure && !resetAcked && !resetReceived
    {
      state, startedClosingProcedure, resetAcked, resetReceived, bytesSent := Open, false, false, false, 0;
      queuedSendData := new PacketQueue();
      this.use, log, past := use, Log([], []), previous.past + [previous.log];
    }

    /** Data is queued first; SendQueuedDataMessages hands it to the transport. */
    method Send(payload: Payload) returns (accepted: bool)
      requires Valid()
      modifies this`log, queuedSendData
      ensures Valid() && Side() == C.Send(old(Side()), payload)
      ensures accepted <==> old(state).Open?
      ensures queuedSendData.packets == old(queuedSendData.packets) + if accepted then [payload] else []
      ensures log == old(log).(sent := old(log).sent + if accepted then [payload] else [])
    {
      if !state.Open? {
        return false;
      }
      BytesAppend(log.sent, [payload]);
      BytesAppend(queuedSendData.packets, [payload]);
      queuedSendData.PushBack(payload);
      log := log.(sent := log.sent + [payload]);
      return true;
    }

    method Close()
      requires Valid()
      modifies this`state
      ensures state == if old(state).Open? then Closing else old(state)
      ensures Valid() && Side() == C.Close(old(Side()))
    {
      if state.Open? {
        state := Closing;
      }
    }

    /**
     Sends queued data until the queue is empty or the transport blocks, which it does after `credit`
     messages; a packet that was blocked goes back to the front.
     */
    method SendQueuedDataMessages(credit: nat) returns (emitted: seq<Message>)
      requires Valid()
      modifies this`bytesSent, queuedSendData
      ensures |emitted| == if credit < |old(Side()).queue| then credit else |old(Side()).queue|
      ensures Valid() && Side() == FlushMany(old(Side()), |emitted|)
      ensures forall i :: 0 <= i < |emitted| ==> emitted[i] == Data(use, old(Side()).queue[i])
      ensures SentByFlushes(old(Side()), Side(), emitted)
    {
      emitted := [];
      ghost var before := Side();
      ghost var queue := queuedSendData.packets;
      var blocked := false;
      while queuedSendData.packets != [] && !blocked
        invariant Valid()
        invariant |emitted| <= credit && |emitted| <= |queue| && queuedSendData.packets == queue[|emitted|..]
        invariant forall i :: 0 <= i < |emitted| ==> emitted[i] == Data(use, queue[i])
        invariant blocked ==> |emitted| == credit
        decreases !blocked, |queuedSendData.packets|
      {
        var packet := queuedSendData.PopFront();
        if |emitted| < credit {
          emitted := emitted + [Data(use, packet)];
          bytesSent := bytesSent + |packet|;
        } else {
          queuedSendData.PushFront(packet);
          blocked := true;
        }
      }
      FlushManyIsSent(before, emitted);
    }

    /** A closing channel whose queue has run empty resets its outgoing stream, once. */
    method RemoveSctpDataStreamIfDrained() returns (emitted: seq<Message>)
      requires Valid()
      modifies this`startedClosingProcedure
      ensures Valid()
      ensures emitted == if old(state).Closing? && queuedSendData.packets == [] && !old(startedClosingProcedure)
                         then [Reset(use)] else []
      ensures startedClosingProcedure == (old(startedClosingProcedure) || emitted != [])
      ensures if CanReset(old(Side()))
              then (Side(), emitted) == (StartReset(old(Side())).0, [StartReset(old(Side())).1])
              else (Side(), emitted) == (old(Side()), [])
    {
      emitted := [];
      if state.Closing? && queuedSendData.packets == [] && !startedClosingProcedure {
        startedClosingProcedure := true;
        emitted := [Reset(use)];
      }
    }

    method OnDataReceived(payload: Payload)
      requires Valid() && !state.Closed?
      modifies this`log
      ensures log == old(log).(arrived := old(log).arrived + [payload])
      ensures Valid() && Side() == C.Receive(old(Side()), Data(use, payload)).0
    {
      log := log.(arrived := log.arrived + [payload]);
    }

    /** The incoming reset has been acknowledged by the transport. */
    method OnClosingProcedureStartedRemotely()
      requires Valid() && !state.Closed?
      modifies this
      ensures state == if old(startedClosingProcedure && resetAcked) then Closed else Closing
      ensures state.Closing? ==> resetReceived && unchanged(`startedClosingProcedure, `resetAcked)
      ensures unchanged(`log, `bytesSent, `queuedSendData)
      ensures Valid() && Side() == C.Receive(old(Side()), Reset(use)).0
    {
      state, resetReceived := Closing, true;
      OnClosingProcedureComplete();
    }

    method OnResetAcknowledged()
      requires Valid()
      modifies this
      ensures state == if old(startedClosingProcedure && resetReceived) then Closed else old(state)
      ensures !old(startedClosingProcedure && resetReceived) ==>
                resetAcked && unchanged(`startedClosingProcedure, `resetReceived)
      ensures unchanged(`log, `bytesSent, `queuedSendData)
      ensures Valid() && Side() == C.Receive(old(Side()), Ack(use)).0
    {
      resetAcked := true;
      OnClosingProcedureComplete();
    }

    /** Closes the channel once both resets are done. */
    method OnClosingProcedureComplete()
      requires Valid()
      modifies this`state, this`startedClosingProcedure, this`resetAcked, this`resetReceived
      ensures if old(startedClosingProcedure && resetAcked && resetReceived)
              then state == Closed && !startedClosingProcedure && !resetAcked && !resetReceived
              else unchanged(`state, `startedClosingProcedure, `resetAcked, `resetReceived)
      ensures Valid() && Side() == Complete(old(Side()))
    {
      if startedClosingProcedure && resetAcked && resetReceived {
        state, startedClosingProcedure, resetAcked, resetReceived := Closed, false, false, false;
      }
    }
  }
}
