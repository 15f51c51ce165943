/**
 The seven routing rules of call/rtp_demuxer.h, each as it is written there: on the extensions that a packet
 carries and on what is registered, for the tables that any sequence of calls leaves behind.
 */
module RtpRules {
  import opened Common
  import opened DemuxerHelper
  import opened RtpTables
  import opened RtpHistory
  import opened RtpRefinement
  import opened RtpRouting

  /** The MID that the packet carries, if the demuxer looks at MIDs. */
  function CarriedMid(h: History, p: Packet): Option<string> {
    if UseMid(h) then p.midExtension else None
  }

  /** The argument of the last call of set_use_mid, if there was one. */
  function LastUseMid(ops: seq<Operation>, before: bool): bool
    decreases |ops|
  {
    if ops == [] then before
    else LastUseMid(ops[1..], if ops[0].SetUseMidOp? then ops[0].useMid else before)
  }

  lemma {:induction false} StepUseMid(h: History, op: Operation)
    ensures UseMid(HistoryStep(h, op).0) == if op.SetUseMidOp? then op.useMid else UseMid(h)
  {
    match op {
      case AddSinkOp(c, s) => Snoc(h, Added(c, s));
      case RemoveSinkOp(s) => Snoc(h, Removed(s));
      case SetUseMidOp(b) => Snoc(h, MidUsed(b));
      case PacketOp(p) =>
        var heard := h + [Heard(p.ssrc, CarriedMid(h, p), p.Rsid())];
        Snoc(h, Heard(p.ssrc, CarriedMid(h, p), p.Rsid()));
        forall sink ensures UseMid(heard + [Bound(p.ssrc, sink)]) == UseMid(heard) {
          Snoc(heard, Bound(p.ssrc, sink));
        }
    }
  }

  /** Whether MIDs are looked at is what the last call of set_use_mid said; at first they are. */
  lemma {:induction false} UseMidIsLastSet(h: History, ops: seq<Operation>)
    ensures UseMid(HistoryAfter(h, ops)) == LastUseMid(ops, UseMid(h))
    ensures UseMid([])
    decreases |ops|
  {
    if ops != [] {
      StepUseMid(h, ops[0]);
      UseMidIsLastSet(HistoryStep(h, ops[0]).0, ops[1..]);
    }
  }

  /** Hearing a packet changes no registration and no binding. */
  lemma {:induction false} HeardKeeps(h: History, e: Event, mid: string, rsid: string, ssrc: Ssrc, pt: PayloadType)
    requires e.Heard?
    ensures SinkFor(h + [e], mid, rsid) == SinkFor(h, mid, rsid)
    ensures SinkOfSsrc(h + [e], ssrc) == SinkOfSsrc(h, ssrc)
    ensures SinksOfPayloadType(h + [e], pt) == SinksOfPayloadType(h, pt)
  {
    Snoc(h, e);
    assert SinksOfPayloadType(h, pt) + [] == SinksOfPayloadType(h, pt);
  }

  /** What is known of the packet's SSRC once the packet has been heard. */
  lemma {:induction false} HeardIds(h: History, p: Packet)
    ensures var mid, e := CarriedMid(h, p), Heard(p.ssrc, CarriedMid(h, p), p.Rsid());
            && MidOfSsrc(h + [e], p.ssrc) == (if mid.Some? then mid else MidOfSsrc(h, p.ssrc))
            && RsidOfSsrc(h + [e], p.ssrc) == (if p.Rsid().Some? then p.Rsid() else RsidOfSsrc(h, p.ssrc))
  {
    Snoc(h, Heard(p.ssrc, CarriedMid(h, p), p.Rsid()));
  }

  /** The answer that the tables give, read off the history. */
  lemma {:induction false} Answer(ops: seq<Operation>, p: Packet)
    ensures Resolve(After(Initial, ops), p).1 == Receive(HistoryAfter([], ops), p).1
    ensures Agrees(After(Initial, ops), HistoryAfter([], ops))
    ensures Agrees(Resolve(After(Initial, ops), p).0, Receive(HistoryAfter([], ops), p).0)
  {
    HistoryAgrees(Initial, [], ops);
    ReceiveAgrees(After(Initial, ops), HistoryAfter([], ops), p);
  }

  /**
   The packet reaches the sink; its SSRC is bound to the sink unless the SSRC table is full, and that is announced
   exactly if it is a change.
   */
  ghost predicate BoundAndForwarded(t: Tables, p: Packet, sink: Sink, binding: Binding) {
    var (t', reply) := Resolve(t, p);
    var room, held := |t.sinkBySsrc| < 1000, Get(t.sinkBySsrc, p.ssrc) == Some(sink);
    && reply == Routed(Some(sink), if room && !held then [binding] else [])
    && (Get(t'.sinkBySsrc, p.ssrc) == Some(sink) <==> room || held)
  }

  /** Rules 2 to 4 and 6 bind what they forward. */
  lemma {:induction false} ForwardBinds(t: Tables, p: Packet, sink: Sink, binding: Binding)
    requires !UnknownMid(t, p)
    requires if SinkByIds(Learn(t, p), p).Some? then SinkByIds(Learn(t, p), p).value == (sink, binding)
             else p.ssrc !in t.sinkBySsrc && EqualRange(t.sinksByPt, p.payloadType) == [sink]
                  && binding == BoundToPayloadType(p.payloadType, p.ssrc)
    ensures BoundAndForwarded(t, p, sink, binding)
  {
  }

  lemma {:induction false} ForwardsByIds(t: Tables, p: Packet)
    requires !UnknownMid(t, p) && SinkByIds(Learn(t, p), p).Some?
    ensures var (sink, binding) := SinkByIds(Learn(t, p), p).value; BoundAndForwarded(t, p, sink, binding)
  {
    var (sink, binding) := SinkByIds(Learn(t, p), p).value;
    ForwardBinds(t, p, sink, binding);
  }

  /** A carried MID that no registered sink names: not routed, and nothing is learned. */
  lemma {:induction false} Rule1(ops: seq<Operation>, p: Packet)
    requires var h := HistoryAfter([], ops);
             CarriedMid(h, p).Some? && !MidRegistered(h, CarriedMid(h, p).value)
    ensures Resolve(After(Initial, ops), p) == (After(Initial, ops), Routed(None, []))
  {
    Answer(ops, p);
    KnownMidsAgree(After(Initial, ops), HistoryAfter([], ops), CarriedMid(HistoryAfter([], ops), p).value);
  }

  /**
   A carried MID with a sink of its own and no carried RSID or RRID: to that sink; only a sink registered for
   the MID together with the RSID heard earlier from the SSRC comes first.
   */
  lemma {:induction false} Rule2(ops: seq<Operation>, p: Packet, mid: string, sink: Sink)
    requires var h := HistoryAfter([], ops);
             && CarriedMid(h, p) == Some(mid) && p.rsidExtension.None? && p.rridExtension.None?
             && Named(h, mid, "") == Some(sink)
    ensures var h := HistoryAfter([], ops);
            var rsid := RsidOfSsrc(h, p.ssrc);
            if rsid.Some? && Paired(h, mid, rsid.value).Some?
            then BoundAndForwarded(After(Initial, ops), p, Paired(h, mid, rsid.value).value,
                                   BoundToMidRsid(mid, rsid.value, p.ssrc))
            else BoundAndForwarded(After(Initial, ops), p, sink, BoundToMid(mid, p.ssrc))
  {
    var t, h := After(Initial, ops), HistoryAfter([], ops);
    Answer(ops, p);
    KnownMidsAgree(t, h, mid);
    assert SinkFor(h, mid, "").Some?;
    var rsid := RsidOfSsrc(h, p.ssrc);
    HeardIds(h, p);
    HeardKeeps(h, Heard(p.ssrc, Some(mid), None), mid, "", p.ssrc, p.payloadType);
    if rsid.Some? {
      HeardKeeps(h, Heard(p.ssrc, Some(mid), None), mid, rsid.value, p.ssrc, p.payloadType);
    }
    LearnAgrees(t, h, p);
    IdsAgree(Learn(t, p), h + [Heard(p.ssrc, Some(mid), None)], p);
    ForwardsByIds(t, p);
  }

  /** A carried MID and RSID, or RRID, whose pair has a sink: to that sink. */
  lemma {:induction false} Rule3(ops: seq<Operation>, p: Packet, mid: string, rsid: string, sink: Sink)
    requires var h := HistoryAfter([], ops);
             && CarriedMid(h, p) == Some(mid) && Paired(h, mid, rsid) == Some(sink)
             && (p.rridExtension == Some(rsid) || (p.rridExtension.None? && p.rsidExtension == Some(rsid)))
    ensures BoundAndForwarded(After(Initial, ops), p, sink, BoundToMidRsid(mid, rsid, p.ssrc))
  {
    var t, h := After(Initial, ops), HistoryAfter([], ops);
    Answer(ops, p);
    KnownMidsAgree(t, h, mid);
    assert SinkFor(h, mid, rsid).Some?;
    HeardIds(h, p);
    HeardKeeps(h, Heard(p.ssrc, Some(mid), Some(rsid)), mid, rsid, p.ssrc, p.payloadType);
    LearnAgrees(t, h, p);
    IdsAgree(Learn(t, p), h + [Heard(p.ssrc, Some(mid), Some(rsid))], p);
    ForwardsByIds(t, p);
  }

  /**
   A carried RSID, or RRID, with a sink of its own and no carried MID: to that sink; only a sink registered for
   the RSID together with the MID heard earlier from the SSRC comes first.
   */
  lemma {:induction false} Rule4(ops: seq<Operation>, p: Packet, rsid: string, sink: Sink)
    requires var h := HistoryAfter([], ops);
             && CarriedMid(h, p).None? && Named(h, "", rsid) == Some(sink)
             && (p.rridExtension == Some(rsid) || (p.rridExtension.None? && p.rsidExtension == Some(rsid)))
    ensures var h := HistoryAfter([], ops);
            var mid := MidOfSsrc(h, p.ssrc);
            if mid.Some? && Paired(h, mid.value, rsid).Some?
            then BoundAndForwarded(After(Initial, ops), p, Paired(h, mid.value, rsid).value,
                                   BoundToMidRsid(mid.value, rsid, p.ssrc))
            else BoundAndForwarded(After(Initial, ops), p, sink, BoundToRsid(rsid, p.ssrc))
  {
    var t, h := After(Initial, ops), HistoryAfter([], ops);
    Answer(ops, p);
    var mid := MidOfSsrc(h, p.ssrc);
    HeardIds(h, p);
    HeardKeeps(h, Heard(p.ssrc, None, Some(rsid)), "", rsid, p.ssrc, p.payloadType);
    if mid.Some? {
      HeardKeeps(h, Heard(p.ssrc, None, Some(rsid)), mid.value, rsid, p.ssrc, p.payloadType);
    }
    LearnAgrees(t, h, p);
    IdsAgree(Learn(t, p), h + [Heard(p.ssrc, None, Some(rsid))], p);
    ForwardsByIds(t, p);
  }

  /**
   None of rules 1 to 4 applies to the ids that the packet carries, completed by those last heard from its SSRC:
   the pair has no sink, nor has the one id that is carried or, if none is carried, the one id that is known.
   */
  ghost predicate NoRuleForIds(h: History, p: Packet) {
    var carriedMid := CarriedMid(h, p);
    var carriedRsid := if p.rridExtension.Some? then p.rridExtension else p.rsidExtension;
    var mid := if carriedMid.Some? then carriedMid else MidOfSsrc(h, p.ssrc);
    var rsid := if carriedRsid.Some? then carriedRsid else RsidOfSsrc(h, p.ssrc);
    && (carriedMid.Some? ==> MidRegistered(h, carriedMid.value))
    && (mid.Some? && rsid.Some? ==> Paired(h, mid.value, rsid.value).None?)
    && (mid.Some? && carriedRsid.None? && (carriedMid.Some? || rsid.None?) ==> Named(h, mid.value, "").None?)
    && (rsid.Some? && carriedMid.None? && (carriedRsid.Some? || mid.None?) ==> Named(h, "", rsid.value).None?)
  }

  lemma {:induction false} NoneIsNamed(h: History, p: Packet)
    requires NoRuleForIds(h, p)
    ensures SinkNamed(h + [Heard(p.ssrc, CarriedMid(h, p), p.Rsid())], p.ssrc, CarriedMid(h, p), p.Rsid()).None?
  {
    var e := Heard(p.ssrc, CarriedMid(h, p), p.Rsid());
    HeardIds(h, p);
    var mid, rsid := MidOfSsrc(h + [e], p.ssrc), RsidOfSsrc(h + [e], p.ssrc);
    if mid.Some? {
      HeardKeeps(h, e, mid.value, "", p.ssrc, p.payloadType);
    }
    if rsid.Some? {
      HeardKeeps(h, e, "", rsid.value, p.ssrc, p.payloadType);
    }
    if mid.Some? && rsid.Some? {
      HeardKeeps(h, e, mid.value, rsid.value, p.ssrc, p.payloadType);
    }
  }

  /** Otherwise, a bound SSRC: to its sink, whatever the payload type, with no change of the binding. */
  lemma {:induction false} Rule5(ops: seq<Operation>, p: Packet, sink: Sink)
    requires var h := HistoryAfter([], ops); NoRuleForIds(h, p) && SinkOfSsrc(h, p.ssrc) == Some(sink)
    ensures Resolve(After(Initial, ops), p) == (Learn(After(Initial, ops), p), Routed(Some(sink), []))
  {
    var t, h := After(Initial, ops), HistoryAfter([], ops);
    NotByIds(ops, p);
    assert Get(t.sinkBySsrc, p.ssrc) == SinkOfSsrc(h, p.ssrc);
  }

  /** Otherwise, a payload type with exactly one registration: to its sink, binding the SSRC. */
  lemma {:induction false} Rule6(ops: seq<Operation>, p: Packet, sink: Sink)
    requires var h := HistoryAfter([], ops);
             NoRuleForIds(h, p) && SinkOfSsrc(h, p.ssrc).None? && SinksOfPayloadType(h, p.payloadType) == [sink]
    ensures BoundAndForwarded(After(Initial, ops), p, sink, BoundToPayloadType(p.payloadType, p.ssrc))
  {
    var t, h := After(Initial, ops), HistoryAfter([], ops);
    NotByIds(ops, p);
    assert Get(t.sinkBySsrc, p.ssrc) == SinkOfSsrc(h, p.ssrc);
    assert EqualRange(t.sinksByPt, p.payloadType) == SinksOfPayloadType(h, p.payloadType);
    ForwardBinds(t, p, sink, BoundToPayloadType(p.payloadType, p.ssrc));
  }

  /** Otherwise the packet is not routed. */
  lemma {:induction false} Rule7(ops: seq<Operation>, p: Packet)
    requires var h := HistoryAfter([], ops);
             NoRuleForIds(h, p) && SinkOfSsrc(h, p.ssrc).None? && |SinksOfPayloadType(h, p.payloadType)| != 1
    ensures Resolve(After(Initial, ops), p) == (Learn(After(Initial, ops), p), Routed(None, []))
  {
    var t, h := After(Initial, ops), HistoryAfter([], ops);
    NotByIds(ops, p);
    assert Get(t.sinkBySsrc, p.ssrc) == SinkOfSsrc(h, p.ssrc);
    assert EqualRange(t.sinksByPt, p.payloadType) == SinksOfPayloadType(h, p.payloadType);
  }

  lemma {:induction false} NotByIds(ops: seq<Operation>, p: Packet)
    requires NoRuleForIds(HistoryAfter([], ops), p)
    ensures var t := After(Initial, ops);
            !UnknownMid(t, p) && SinkByIds(Learn(t, p), p).None? && Agrees(t, HistoryAfter([], ops))
  {
    var t, h := After(Initial, ops), HistoryAfter([], ops);
    Answer(ops, p);
    if CarriedMid(h, p).Some? {
      KnownMidsAgree(t, h, CarriedMid(h, p).value);
    }
    LearnAgrees(t, h, p);
    IdsAgree(Learn(t, p), h + [Heard(p.ssrc, CarriedMid(h, p), p.Rsid())], p);
    NoneIsNamed(h, p);
  }
}
