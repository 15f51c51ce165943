/** What the RTP demuxer promises across calls: removal, latching, limits, one sink per name. */
module RtpRouting {
  import opened Common
  import opened DemuxerHelper
  import opened RtpTables
  import opened RtpHistory
  import opened RtpRefinement

  // ---- A removed sink ----

  predicate NeverAdded(ops: seq<Operation>, s: Sink) {
    forall i :: 0 <= i < |ops| && ops[i].AddSinkOp? ==> ops[i].sink != s
  }

  lemma {:induction false} AddKeepsSilent(t: Tables, c: Criteria, added: Sink, s: Sink)
    requires !Holds(t, s) && added != s
    ensures !Holds(Record(t, c, added), s)
  {
    WithPayloadTypesHas(t.sinksByPt, c.payloadTypes, added, 256, s);
  }

  lemma {:induction false} RemoveKeepsSilent(t: Tables, removed: Sink, s: Sink)
    requires !Holds(t, s) || removed == s
    ensures !Holds(RemoveSink(t, removed).0, s)
  {
    WithoutValueHas(t.sinksByPt, removed, s);
  }

  lemma {:induction false} PacketKeepsSilent(t: Tables, p: Packet, s: Sink)
    requires !Holds(t, s)
    ensures !Holds(Resolve(t, p).0, s)
    ensures Resolve(t, p).1.sink != Some(s)
  {
    RoutedSinkIsHeld(t, p);
    PacketEffect(t, p);
  }

  /** Whatever a packet is routed to is held by some table. */
  lemma {:induction false} RoutedSinkIsHeld(t: Tables, p: Packet)
    ensures Resolve(t, p).1.Routed?
    ensures Resolve(t, p).1.sink.Some? ==> Holds(t, Resolve(t, p).1.sink.value)
  {
    var sinks := EqualRange(t.sinksByPt, p.payloadType);
    if |sinks| == 1 {
      InEqualRange(t.sinksByPt, p.payloadType, sinks[0]);
      var i :| 0 <= i < |t.sinksByPt| && t.sinksByPt[i] == (p.payloadType, sinks[0]);
      assert t.sinksByPt[i].1 == sinks[0];
    }
    if !UnknownMid(t, p) && SinkByIds(Learn(t, p), p).Some? {
      IdsSinkIsHeld(Learn(t, p), p);
    }
  }

  lemma {:induction false} IdsSinkIsHeld(t: Tables, p: Packet)
    requires SinkByIds(t, p).Some?
    ensures Holds(t, SinkByIds(t, p).value.0)
  {
  }

  lemma {:induction false} StepKeepsSilent(t: Tables, op: Operation, s: Sink)
    requires !Holds(t, s)
    requires op.AddSinkOp? ==> op.sink != s
    ensures !Holds(Step(t, op).0, s)
    ensures Step(t, op).1.Routed? ==> Step(t, op).1.sink != Some(s)
  {
    match op {
      case AddSinkOp(c, added) => AddKeepsSilent(t, c, added, s);
      case RemoveSinkOp(removed) => RemoveKeepsSilent(t, removed, s);
      case PacketOp(p) => PacketKeepsSilent(t, p, s);
      case SetUseMidOp(b) =>
    }
  }

  lemma {:induction false} WithPayloadTypesHas(entries: seq<(PayloadType, Sink)>, pts: set<PayloadType>,
                                               sink: Sink, n: nat, s: Sink)
    requires n <= 256 && s != sink && !MultimapHasValue(entries, s)
    ensures !MultimapHasValue(WithPayloadTypes(entries, pts, sink, n), s)
  {
    if n > 0 {
      WithPayloadTypesHas(entries, pts, sink, n - 1, s);
    }
  }

  lemma {:induction false} SilentRun(t: Tables, s: Sink, ops: seq<Operation>)
    requires !Holds(t, s) && NeverAdded(ops, s)
    ensures forall r :: r in Replies(t, ops) && r.Routed? ==> r.sink != Some(s)
    decreases |ops|
  {
    if ops != [] {
      StepKeepsSilent(t, ops[0], s);
      SilentRun(Step(t, ops[0]).0, s, ops[1..]);
    }
  }

  /** After RemoveSink no packet reaches the sink until it is added again, whatever was learned before. */
  lemma {:induction false} RemovedSinkGetsNothing(before: seq<Operation>, s: Sink, ops: seq<Operation>)
    requires NeverAdded(ops, s)
    ensures forall r :: r in Replies(RemoveSink(After(Initial, before), s).0, ops) && r.Routed? ==> r.sink != Some(s)
  {
    RemoveKeepsSilent(After(Initial, before), s, s);
    SilentRun(RemoveSink(After(Initial, before), s).0, s, ops);
  }

  // ---- Latching ----

  /** What a packet can change: the memory of its own SSRC and the binding of its own SSRC. */
  lemma {:induction false} PacketEffect(t: Tables, p: Packet)
    ensures SameNames(t, Resolve(t, p).0)
    ensures Resolve(t, p).0.sinksByPt == t.sinksByPt && Resolve(t, p).0.knownMids == t.knownMids
    ensures SameBindings(t, Resolve(t, p).0, p.ssrc, Resolve(t, p).1.sink)
    ensures UnknownMid(t, p) ==> Resolve(t, p).0 == t
    ensures !UnknownMid(t, p) ==> Resolve(t, p).0.midBySsrc == Learn(t, p).midBySsrc
    ensures !UnknownMid(t, p) ==> Resolve(t, p).0.rsidBySsrc == Learn(t, p).rsidBySsrc
  {
    if !UnknownMid(t, p) {
      var t1 := Learn(t, p);
      var byIds, sinks := SinkByIds(t1, p), EqualRange(t1.sinksByPt, p.payloadType);
      if byIds.Some? {
        BindEffect(t1, p.ssrc, byIds.value);
      } else if p.ssrc !in t1.sinkBySsrc && |sinks| == 1 {
        BindEffect(t1, p.ssrc, (sinks[0], BoundToPayloadType(p.payloadType, p.ssrc)));
      }
    }
  }

  lemma {:induction false} BindEffect(t: Tables, ssrc: Ssrc, target: (Sink, Binding))
    ensures var (t', reply) := BindAndForward(t, ssrc, target);
            && t' == t.(sinkBySsrc := t'.sinkBySsrc)
            && reply.sink == Some(target.0)
            && SameBindings(t, t', ssrc, reply.sink)
  {
  }

  predicate SameBindings(t: Tables, t': Tables, ssrc: Ssrc, sink: Option<Sink>) {
    || t'.sinkBySsrc == t.sinkBySsrc
    || (|t.sinkBySsrc| < MAX_SSRC_BINDINGS && sink.Some? && t'.sinkBySsrc == t.sinkBySsrc[ssrc := sink.value])
  }

  lemma {:induction false} SinkChangeEffect(t: Tables, op: Operation)
    requires !op.PacketOp?
    ensures var t' := Step(t, op).0;
            && t'.midBySsrc == t.midBySsrc && t'.rsidBySsrc == t.rsidBySsrc
            && (MidsFresh(t) ==> MidsFresh(t'))
            && (op.SetUseMidOp? ==> t' == t.(useMid := op.useMid))
  {
  }

  lemma {:induction false} StepKeepsMidsFresh(t: Tables, op: Operation)
    requires MidsFresh(t)
    ensures MidsFresh(Step(t, op).0)
  {
    if op.PacketOp? {
      PacketEffect(t, op.packet);
    } else {
      SinkChangeEffect(t, op);
    }
  }

  lemma {:induction false} QuietStepRemembers(
    t: Tables, op: Operation, ssrc: Ssrc, mid: Option<string>, rsid: Option<string>)
    requires Remembers(t, ssrc, mid, rsid) && Quiet(op, ssrc, mid, rsid)
    ensures Remembers(Step(t, op).0, ssrc, mid, rsid)
  {
    if op.PacketOp? {
      PacketEffect(t, op.packet);
    } else {
      SinkChangeEffect(t, op);
    }
  }

  /** The operation does not make the SSRC carry another MID or RSID. */
  predicate Quiet(op: Operation, ssrc: Ssrc, mid: Option<string>, rsid: Option<string>) {
    op.PacketOp? && op.packet.ssrc == ssrc ==>
      && op.packet.midExtension in {None, mid}
      && op.packet.Rsid() in {None, rsid}
  }

  predicate AllQuiet(ops: seq<Operation>, ssrc: Ssrc, mid: Option<string>, rsid: Option<string>) {
    forall i :: 0 <= i < |ops| ==> Quiet(ops[i], ssrc, mid, rsid)
  }

  predicate Remembers(t: Tables, ssrc: Ssrc, mid: Option<string>, rsid: Option<string>) {
    Get(t.midBySsrc, ssrc) == mid && Get(t.rsidBySsrc, ssrc) == rsid
  }

  lemma {:induction false} QuietRunRemembers(
    t: Tables, ops: seq<Operation>, ssrc: Ssrc, mid: Option<string>, rsid: Option<string>)
    requires Remembers(t, ssrc, mid, rsid) && AllQuiet(ops, ssrc, mid, rsid)
    ensures Remembers(After(t, ops), ssrc, mid, rsid)
    decreases |ops|
  {
    if ops != [] {
      assert Quiet(ops[0], ssrc, mid, rsid);
      QuietStepRemembers(t, ops[0], ssrc, mid, rsid);
      QuietRunRemembers(Step(t, ops[0]).0, ops[1..], ssrc, mid, rsid);
    }
  }

  lemma {:induction false} RunKeepsMidsFresh(t: Tables, ops: seq<Operation>)
    requires MidsFresh(t)
    ensures MidsFresh(After(t, ops))
    decreases |ops|
  {
    if ops != [] {
      StepKeepsMidsFresh(t, ops[0]);
      RunKeepsMidsFresh(Step(t, ops[0]).0, ops[1..]);
    }
  }

  /** A packet whose SSRC is remembered to carry some registered ids goes to the sink of those ids. */
  lemma {:induction false} RememberedIdsDecide(t: Tables, q: Packet, ids: (Option<string>, Option<string>))
    requires MidsFresh(t) && Remembers(t, q.ssrc, ids.0, ids.1) && IdsSink(t, ids).Some?
    requires Quiet(PacketOp(q), q.ssrc, ids.0, ids.1)
    ensures Resolve(t, q).1.sink == IdsSink(t, ids)
  {
  }

  /** What the packet's SSRC is remembered to carry once the packet is seen. */
  function IdsAfter(t: Tables, p: Packet): (Option<string>, Option<string>) {
    (Get(Learn(t, p).midBySsrc, p.ssrc), Get(Learn(t, p).rsidBySsrc, p.ssrc))
  }

  /** The calls do not make the packet's SSRC carry ids other than those it carries after the packet. */
  predicate QuietAfter(t: Tables, p: Packet, ops: seq<Operation>) {
    AllQuiet(ops, p.ssrc, IdsAfter(t, p).0, IdsAfter(t, p).1)
  }

  lemma {:induction false} QuietAfterRemembers(t: Tables, p: Packet, between: seq<Operation>, q: Packet)
    requires !UnknownMid(t, p) && QuietAfter(t, p, between + [PacketOp(q)])
    ensures Remembers(After(Resolve(t, p).0, between), p.ssrc, IdsAfter(t, p).0, IdsAfter(t, p).1)
    ensures Quiet(PacketOp(q), p.ssrc, IdsAfter(t, p).0, IdsAfter(t, p).1)
  {
    var (mid, rsid) := IdsAfter(t, p);
    var ops := between + [PacketOp(q)];
    assert Quiet(ops[|between|], p.ssrc, mid, rsid);
    forall i | 0 <= i < |between| ensures Quiet(between[i], p.ssrc, mid, rsid) {
      assert Quiet(ops[i], p.ssrc, mid, rsid);
    }
    PacketEffect(t, p);
    QuietRunRemembers(Resolve(t, p).0, between, p.ssrc, mid, rsid);
  }

  /**
   Learned ids outlive sinks. Once an SSRC has been heard with some MID and RSID, then after any further
   calls, including removals and additions of sinks, its packets go to whichever sink is by then
   registered for that MID and RSID, as long as the SSRC itself is not heard with others.
   */
  lemma {:induction false} LearnedIdsOutliveSinks(before: seq<Operation>, p: Packet, between: seq<Operation>, q: Packet)
    requires q.ssrc == p.ssrc && !UnknownMid(After(Initial, before), p)
    requires QuietAfter(After(Initial, before), p, between + [PacketOp(q)])
    ensures var ids := IdsAfter(After(Initial, before), p);
            var now := After(Resolve(After(Initial, before), p).0, between);
            && Remembers(now, p.ssrc, ids.0, ids.1)
            && (IdsSink(now, ids).Some? ==> Resolve(now, q).1.sink == IdsSink(now, ids))
  {
    var t := After(Initial, before);
    var t1 := Resolve(t, p).0;
    QuietAfterRemembers(t, p, between, q);
    RunKeepsMidsFresh(Initial, before);
    PacketEffect(t, p);
    RunKeepsMidsFresh(t1, between);
    if IdsSink(After(t1, between), IdsAfter(t, p)).Some? {
      RememberedIdsDecide(After(t1, between), q, IdsAfter(t, p));
    }
  }

  predicate NoSinkChange(ops: seq<Operation>) {
    forall i :: 0 <= i < |ops| ==> ops[i].PacketOp? || ops[i].SetUseMidOp?
  }

  predicate SameNames(t: Tables, t': Tables) {
    t'.sinkByMid == t.sinkByMid && t'.sinkByMidRsid == t.sinkByMidRsid && t'.sinkByRsid == t.sinkByRsid
  }

  lemma {:induction false} StepKeepsNames(t: Tables, op: Operation)
    requires op.PacketOp? || op.SetUseMidOp?
    ensures SameNames(t, Step(t, op).0) && Step(t, op).0.sinksByPt == t.sinksByPt
  {
    if op.PacketOp? {
      PacketEffect(t, op.packet);
    }
  }

  lemma {:induction false} PacketsKeepNames(t: Tables, ops: seq<Operation>)
    requires NoSinkChange(ops)
    ensures SameNames(t, After(t, ops)) && After(t, ops).sinksByPt == t.sinksByPt
    decreases |ops|
  {
    if ops != [] {
      StepKeepsNames(t, ops[0]);
      PacketsKeepNames(Step(t, ops[0]).0, ops[1..]);
    }
  }

  /**
   Once a packet is routed by all ids known of its SSRC, every later packet of the SSRC, with or without the
   extensions, reaches the same sink until a sink changes or the SSRC is heard with another MID or RSID.
   This holds even when the SSRC table is full.
   */
  lemma {:induction false} LatchedByIds(before: seq<Operation>, p: Packet, between: seq<Operation>, q: Packet)
    requires q.ssrc == p.ssrc && !UnknownMid(After(Initial, before), p)
    requires IdsSink(After(Initial, before), IdsAfter(After(Initial, before), p)).Some?
    requires NoSinkChange(between) && QuietAfter(After(Initial, before), p, between + [PacketOp(q)])
    ensures var (t1, reply) := Resolve(After(Initial, before), p);
            && reply.sink == IdsSink(After(Initial, before), IdsAfter(After(Initial, before), p))
            && Resolve(After(t1, between), q).1.sink == reply.sink
  {
    var t := After(Initial, before);
    var t1 := Resolve(t, p).0;
    PacketEffect(t, p);
    PacketsKeepNames(t1, between);
    LearnedIdsOutliveSinks(before, p, between, q);
  }

  // ---- Latching when only the ids that a packet carries are registered ----

  /** The sink registered for the one id that the packet carries. */
  function CarriedSink(t: Tables, p: Packet): Option<Sink> {
    if PacketMid(t, p).Some? then IdsSink(t, (PacketMid(t, p), None)) else IdsSink(t, (None, p.Rsid()))
  }

  /** Both ids are known of the SSRC and their pair has no sink, but the one that the packet carries has. */
  predicate RoutedByCarriedId(t: Tables, p: Packet) {
    && !UnknownMid(t, p) && PacketMid(t, p).Some? == p.Rsid().None? && CarriedSink(t, p).Some?
    && IdsAfter(t, p).0.Some? && IdsAfter(t, p).1.Some? && IdsSink(t, IdsAfter(t, p)).None?
  }

  /** In such a state of the SSRC its packets go to `sink`, which it is bound to. */
  ghost predicate Latched(t: Tables, ssrc: Ssrc, mid: Option<string>, rsid: Option<string>,
                          ids: (Option<string>, Option<string>), sink: Sink) {
    && MidsFresh(t) && Remembers(t, ssrc, ids.0, ids.1) && IdsSink(t, ids).None? && ids.0.Some? && ids.1.Some?
    && Get(t.sinkBySsrc, ssrc) == Some(sink)
    && ((mid == ids.0 && rsid.None? && IdsSink(t, (mid, None)) == Some(sink))
        || (rsid == ids.1 && mid.None? && IdsSink(t, (None, rsid)) == Some(sink)))
  }

  lemma {:induction false} LatchedPacket(t: Tables, q: Packet, mid: Option<string>, rsid: Option<string>,
                                         ids: (Option<string>, Option<string>), sink: Sink)
    requires Latched(t, q.ssrc, mid, rsid, ids, sink) && Quiet(PacketOp(q), q.ssrc, mid, rsid)
    ensures Resolve(t, q).1.sink == Some(sink) && Latched(Resolve(t, q).0, q.ssrc, mid, rsid, ids, sink)
  {
    assert !UnknownMid(t, q);
    assert Learn(t, q).midBySsrc == t.midBySsrc && Learn(t, q).rsidBySsrc == t.rsidBySsrc;
    PacketEffect(t, q);
  }

  lemma {:induction false} LatchedStep(t: Tables, op: Operation, ssrc: Ssrc, mid: Option<string>, rsid: Option<string>,
                                       ids: (Option<string>, Option<string>), sink: Sink)
    requires Latched(t, ssrc, mid, rsid, ids, sink) && Quiet(op, ssrc, mid, rsid)
    requires op.PacketOp? || op.SetUseMidOp?
    ensures Latched(Step(t, op).0, ssrc, mid, rsid, ids, sink)
  {
    if op.PacketOp? && op.packet.ssrc == ssrc {
      LatchedPacket(t, op.packet, mid, rsid, ids, sink);
    } else if op.PacketOp? {
      PacketEffect(t, op.packet);
    }
  }

  lemma {:induction false} LatchedRun(
    t: Tables, ops: seq<Operation>, ssrc: Ssrc, mid: Option<string>, rsid: Option<string>,
    ids: (Option<string>, Option<string>), sink: Sink)
    requires Latched(t, ssrc, mid, rsid, ids, sink) && NoSinkChange(ops)
    requires AllQuiet(ops, ssrc, mid, rsid)
    ensures Latched(After(t, ops), ssrc, mid, rsid, ids, sink)
    decreases |ops|
  {
    if ops != [] {
      assert Quiet(ops[0], ssrc, mid, rsid);
      LatchedStep(t, ops[0], ssrc, mid, rsid, ids, sink);
      LatchedRun(Step(t, ops[0]).0, ops[1..], ssrc, mid, rsid, ids, sink);
    }
  }

  /** The packet's binding was recorded: the SSRC table had room, or held it already. */
  predicate Recorded(t: Tables, p: Packet) {
    |t.sinkBySsrc| < MAX_SSRC_BINDINGS || Get(t.sinkBySsrc, p.ssrc) == CarriedSink(t, p)
  }

  lemma {:induction false} CarriedIdDecides(t: Tables, p: Packet)
    requires RoutedByCarriedId(t, p)
    ensures SinkByIds(Learn(t, p), p).Some? && Some(SinkByIds(Learn(t, p), p).value.0) == CarriedSink(t, p)
    ensures Resolve(t, p).1.sink == CarriedSink(t, p)
  {
    assert IdsSink(Learn(t, p), IdsAfter(t, p)) == IdsSink(t, IdsAfter(t, p));
  }

  lemma {:induction false} CarriedIdLatches(t: Tables, p: Packet)
    requires MidsFresh(t) && RoutedByCarriedId(t, p) && Recorded(t, p)
    ensures Latched(Resolve(t, p).0, p.ssrc, PacketMid(t, p), p.Rsid(), IdsAfter(t, p), CarriedSink(t, p).value)
  {
    CarriedIdDecides(t, p);
    var learned := Learn(t, p);
    var target := SinkByIds(learned, p).value;
    assert Resolve(t, p) == BindAndForward(learned, p.ssrc, target);
    BindEffect(learned, p.ssrc, target);
    var t1 := Resolve(t, p).0;
    assert SameNames(t, t1) && IdsSink(t1, IdsAfter(t, p)) == IdsSink(t, IdsAfter(t, p));
    assert Get(t1.sinkBySsrc, p.ssrc) == Some(target.0);
  }

  /**
   Once a packet is routed by the one id it carries although another is known of its SSRC, every later packet
   of the SSRC that carries that id or none reaches the same sink until a sink changes, provided that the
   binding of the SSRC was recorded.
   */
  lemma {:induction false} LatchedByCarriedId(before: seq<Operation>, p: Packet, between: seq<Operation>, q: Packet)
    requires q.ssrc == p.ssrc && RoutedByCarriedId(After(Initial, before), p) && NoSinkChange(between)
    requires var t := After(Initial, before);
             && AllQuiet(between, p.ssrc, PacketMid(t, p), p.Rsid())
             && Quiet(PacketOp(q), p.ssrc, PacketMid(t, p), p.Rsid())
    ensures var t := After(Initial, before);
            var (t1, reply) := Resolve(t, p);
            && reply.sink == CarriedSink(t, p)
            && (Recorded(t, p) ==> Resolve(After(t1, between), q).1.sink == CarriedSink(t, p))
  {
    var t := After(Initial, before);
    var t1 := Resolve(t, p).0;
    RunKeepsMidsFresh(Initial, before);
    CarriedIdDecides(t, p);
    if Recorded(t, p) {
      CarriedIdLatches(t, p);
      LatchedRun(t1, between, p.ssrc, PacketMid(t, p), p.Rsid(), IdsAfter(t, p), CarriedSink(t, p).value);
      LatchedPacket(After(t1, between), q, PacketMid(t, p), p.Rsid(), IdsAfter(t, p), CarriedSink(t, p).value);
    }
  }

  /** If it was not recorded, the next packet of the SSRC that carries no id is routed as if this one had never come. */
  lemma {:induction false} UnrecordedIsForgotten(t: Tables, p: Packet, q: Packet)
    requires RoutedByCarriedId(t, p) && !Recorded(t, p)
    requires q.ssrc == p.ssrc && q.midExtension.None? && q.Rsid().None?
    ensures var sinks := EqualRange(t.sinksByPt, q.payloadType);
            Resolve(Resolve(t, p).0, q).1.sink
            == if q.ssrc in t.sinkBySsrc then Some(t.sinkBySsrc[q.ssrc])
               else if |sinks| == 1 then Some(sinks[0]) else None
  {
    CarriedIdDecides(t, p);
    PacketEffect(t, p);
    assert SinkByIds(Learn(Resolve(t, p).0, q), q).None?;
  }

  /** One sink, registered for a MID and some SSRCs. */
  lemma {:induction false} OneMidSinkTables(mid: string, ssrcs: set<Ssrc>, sink: Sink, pt: PayloadType)
    requires mid != ""
    ensures var t := Step(Initial, AddSinkOp(Criteria(mid, "", ssrcs, {}), sink)).0;
            && t.sinkBySsrc.Keys == ssrcs && |t.sinkBySsrc| == |ssrcs| && EqualRange(t.sinksByPt, pt) == []
            && t.sinkByMid == map[mid := sink] && t.sinkByMidRsid == map[] && t.sinkByRsid == map[]
            && mid in t.knownMids && t.useMid && t.midBySsrc == map[] && t.rsidBySsrc == map[]
  {
    var c := Criteria(mid, "", ssrcs, {});
    assert !CriteriaWouldConflict(Initial, c);
    assert Record(Initial, c, sink).sinkBySsrc.Keys == ssrcs;
    assert mid in Record(Initial, c, sink).sinkByMid;
    WithPayloadTypesRange([], {}, sink, 256, pt);
  }

  /** A packet whose RSID nobody asked for leaves only that RSID behind. */
  lemma {:induction false} StrayRsid(t: Tables, ssrc: Ssrc, pt: PayloadType, rsid: string)
    requires t.sinkByRsid == map[] && EqualRange(t.sinksByPt, pt) == [] && ssrc !in t.sinkBySsrc && ssrc !in t.midBySsrc
    ensures Resolve(t, Packet(ssrc, pt, None, Some(rsid), None)).0 == t.(rsidBySsrc := t.rsidBySsrc[ssrc := rsid])
  {
  }

  lemma {:induction false} AfterTwo(t: Tables, a: Operation, b: Operation)
    ensures After(t, [a, b]) == Step(Step(t, a).0, b).0
  {
    assert [a, b][1..] == [b] && [b][1..] == [];
    assert After(Step(t, a).0, [b]) == Step(Step(t, a).0, b).0;
  }

  /** So "later packets are forwarded to the same sink" can fail: here the last packet is not routed at all. */
  lemma {:induction false} LatchLostWhenFull(
    mid: string, rsid: string, ssrcs: set<Ssrc>, sink: Sink, ssrc: Ssrc, pt: PayloadType)
    requires mid != "" && |ssrcs| >= MAX_SSRC_BINDINGS && ssrc !in ssrcs
    ensures var t := After(Initial, [AddSinkOp(Criteria(mid, "", ssrcs, {}), sink),
                                     PacketOp(Packet(ssrc, pt, None, Some(rsid), None))]);
            var (t', reply) := Resolve(t, Packet(ssrc, pt, Some(mid), None, None));
            reply.sink == Some(sink) && Resolve(t', Packet(ssrc, pt, None, None, None)).1.sink.None?
  {
    var add, heard := AddSinkOp(Criteria(mid, "", ssrcs, {}), sink), Packet(ssrc, pt, None, Some(rsid), None);
    AfterTwo(Initial, add, PacketOp(heard));
    OneMidSinkTables(mid, ssrcs, sink, pt);
    StrayRsid(Step(Initial, add).0, ssrc, pt, rsid);
    MidWithStrayRsid(After(Initial, [add, PacketOp(heard)]), mid, sink, ssrc, pt);
  }

  lemma {:induction false} MidWithStrayRsid(t: Tables, mid: string, sink: Sink, ssrc: Ssrc, pt: PayloadType)
    requires t.useMid && mid in t.knownMids && t.sinkByMid == map[mid := sink] && t.sinkByMidRsid == map[]
    requires ssrc in t.rsidBySsrc && ssrc !in t.sinkBySsrc && EqualRange(t.sinksByPt, pt) == []
    requires |t.sinkBySsrc| >= MAX_SSRC_BINDINGS
    ensures var (t', reply) := Resolve(t, Packet(ssrc, pt, Some(mid), None, None));
            reply.sink == Some(sink) && Resolve(t', Packet(ssrc, pt, None, None, None)).1.sink.None?
  {
    var named := Packet(ssrc, pt, Some(mid), None, None);
    assert RoutedByCarriedId(t, named) && !Recorded(t, named);
    CarriedIdDecides(t, named);
    UnrecordedIsForgotten(t, named, Packet(ssrc, pt, None, None, None));
  }

  /** Rule 6 was the one that routed the packet. */
  predicate RoutedByPayloadType(t: Tables, p: Packet) {
    var t' := Learn(t, p);
    && !UnknownMid(t, p) && SinkByIds(t', p).None? && p.ssrc !in t.sinkBySsrc
    && |EqualRange(t.sinksByPt, p.payloadType)| == 1
  }

  /** A packet routed by payload type binds its SSRC exactly when the SSRC table is not full. */
  lemma {:induction false} PayloadTypeBinds(t: Tables, p: Packet)
    requires RoutedByPayloadType(t, p)
    ensures Resolve(t, p).1.sink == Some(EqualRange(t.sinksByPt, p.payloadType)[0])
    ensures Get(Resolve(t, p).0.sinkBySsrc, p.ssrc) == Resolve(t, p).1.sink <==> |t.sinkBySsrc| < MAX_SSRC_BINDINGS
  {
    var sinks := EqualRange(Learn(t, p).sinksByPt, p.payloadType);
    BindEffect(Learn(t, p), p.ssrc, (sinks[0], BoundToPayloadType(p.payloadType, p.ssrc)));
  }

  /** The SSRC is bound to the sink, and nothing is registered for the ids it is known by. */
  predicate BoundOnly(t: Tables, ssrc: Ssrc, ids: (Option<string>, Option<string>), sink: Sink) {
    Remembers(t, ssrc, ids.0, ids.1) && IdsSink(t, ids).None? && Get(t.sinkBySsrc, ssrc) == Some(sink)
  }

  lemma {:induction false} BoundOnlyDecides(t: Tables, q: Packet, ids: (Option<string>, Option<string>), sink: Sink)
    requires BoundOnly(t, q.ssrc, ids, sink) && Quiet(PacketOp(q), q.ssrc, None, None)
    ensures Resolve(t, q) == (t, Routed(Some(sink), []))
  {
    assert Learn(t, q) == t;
  }

  lemma {:induction false} StepKeepsBoundOnly(
    t: Tables, op: Operation, ssrc: Ssrc, ids: (Option<string>, Option<string>), sink: Sink)
    requires (op.PacketOp? || op.SetUseMidOp?) && Quiet(op, ssrc, None, None) && BoundOnly(t, ssrc, ids, sink)
    ensures BoundOnly(Step(t, op).0, ssrc, ids, sink)
  {
    if op.PacketOp? && op.packet.ssrc == ssrc {
      BoundOnlyDecides(t, op.packet, ids, sink);
    } else if op.PacketOp? {
      PacketEffect(t, op.packet);
    }
  }

  lemma {:induction false} RunKeepsBoundOnly(
    t: Tables, ops: seq<Operation>, ssrc: Ssrc, ids: (Option<string>, Option<string>), sink: Sink)
    requires NoSinkChange(ops) && AllQuiet(ops, ssrc, None, None) && BoundOnly(t, ssrc, ids, sink)
    ensures BoundOnly(After(t, ops), ssrc, ids, sink)
    decreases |ops|
  {
    if ops != [] {
      assert Quiet(ops[0], ssrc, None, None);
      StepKeepsBoundOnly(t, ops[0], ssrc, ids, sink);
      RunKeepsBoundOnly(Step(t, ops[0]).0, ops[1..], ssrc, ids, sink);
    }
  }

  lemma {:induction false} PayloadTypeLeavesBoundOnly(t: Tables, p: Packet)
    requires RoutedByPayloadType(t, p) && |t.sinkBySsrc| < MAX_SSRC_BINDINGS
    ensures Resolve(t, p).1.sink.Some? && BoundOnly(Resolve(t, p).0, p.ssrc, IdsAfter(t, p), Resolve(t, p).1.sink.value)
  {
    PayloadTypeBinds(t, p);
    PacketEffect(t, p);
    assert IdsSink(Learn(t, p), IdsAfter(t, p)).None?;
  }

  /**
   And then the SSRC's later packets without ids reach the same sink, whatever payload type they carry, until a
   sink changes. The packet itself may carry ids, and its SSRC be known by ids, that nobody registered.
   */
  lemma {:induction false} LatchedByPayloadType(t: Tables, p: Packet, between: seq<Operation>, q: Packet)
    requires RoutedByPayloadType(t, p) && |t.sinkBySsrc| < MAX_SSRC_BINDINGS && NoSinkChange(between)
    requires AllQuiet(between, p.ssrc, None, None) && q.ssrc == p.ssrc && Quiet(PacketOp(q), p.ssrc, None, None)
    ensures Resolve(After(Resolve(t, p).0, between), q).1.sink == Resolve(t, p).1.sink
  {
    PayloadTypeLeavesBoundOnly(t, p);
    var sink := Resolve(t, p).1.sink.value;
    RunKeepsBoundOnly(Resolve(t, p).0, between, p.ssrc, IdsAfter(t, p), sink);
    BoundOnlyDecides(After(Resolve(t, p).0, between), q, IdsAfter(t, p), sink);
  }

  function Larger(a: nat, b: nat): nat {
    if a > b then a else b
  }

  lemma {:induction false} StepRespectsLimit(t: Tables, op: Operation)
    requires !op.AddSinkOp?
    ensures |Step(t, op).0.sinkBySsrc| <= Larger(|t.sinkBySsrc|, MAX_SSRC_BINDINGS)
  {
    if op.RemoveSinkOp? {
      SubsetSize(MapWithoutValue(t.sinkBySsrc, op.sink).Keys, t.sinkBySsrc.Keys);
    } else if op.PacketOp? {
      PacketEffect(t, op.packet);
    }
  }

  /** Handling packets never grows the SSRC table past the limit. */
  lemma {:induction false} PacketsRespectLimit(t: Tables, ops: seq<Operation>)
    requires forall i :: 0 <= i < |ops| ==> !ops[i].AddSinkOp?
    ensures |After(t, ops).sinkBySsrc| <= Larger(|t.sinkBySsrc|, 1000)
    decreases |ops|
  {
    if ops != [] {
      StepRespectsLimit(t, ops[0]);
      PacketsRespectLimit(Step(t, ops[0]).0, ops[1..]);
    }
  }

  lemma {:induction false} SubsetSize<T>(a: set<T>, b: set<T>)
    requires a <= b
    ensures |a| <= |b|
    decreases a
  {
    if a != {} {
      var x :| x in a;
      SubsetSize(a - {x}, b - {x});
    }
  }

  // ---- One sink per name ----

  ghost predicate Live(h: History, i: nat) {
    i < |h| && h[i].Added? && forall j :: i < j < |h| ==> h[j] != Removed(h[i].sink)
  }

  lemma {:induction false} LiveIsFound(h: History, i: nat, gone: set<Sink>)
    requires Live(h, i) && h[i].sink !in gone
    ensures SinkFor(h, h[i].criteria.mid, h[i].criteria.rsid, gone).Some?
    decreases |h|
  {
    if i < |h| - 1 {
      assert Live(Front(h), i);
      LiveIsFound(Front(h), i, Gone(h, gone));
    }
  }

  /** The history that the calls write, starting from `h`. */
  ghost function HistoryAfter(h: History, ops: seq<Operation>): History
    decreases |ops|
  {
    if ops == [] then h else HistoryAfter(HistoryStep(h, ops[0]).0, ops[1..])
  }

  lemma {:induction false} HistoryAgrees(t: Tables, h: History, ops: seq<Operation>)
    requires Agrees(t, h)
    ensures Agrees(After(t, ops), HistoryAfter(h, ops))
    decreases |ops|
  {
    if ops != [] {
      StepAgrees(t, h, ops[0]);
      HistoryAgrees(Step(t, ops[0]).0, HistoryStep(h, ops[0]).0, ops[1..]);
    }
  }

  lemma {:induction false} UniqueNames(h: History, i: nat, j: nat)
    requires NamesUnique(h) && i < j < |h| && Live(h, i) && Live(h, j)
    requires h[i].criteria.mid != "" || h[i].criteria.rsid != ""
    ensures (h[i].criteria.mid, h[i].criteria.rsid) != (h[j].criteria.mid, h[j].criteria.rsid)
    decreases |h|
  {
    assert Live(Front(h), i);
    if j < |h| - 1 {
      assert Live(Front(h), j);
      UniqueNames(Front(h), i, j);
    } else {
      LiveIsFound(Front(h), i, {});
    }
  }

  /** In every run no two registered sinks were added for the same MID, RSID or pair of both. */
  lemma {:induction false} OneSinkPerName(ops: seq<Operation>, i: nat, j: nat)
    requires var h := HistoryAfter([], ops);
             i < j < |h| && Live(h, i) && Live(h, j) && (h[i].criteria.mid != "" || h[i].criteria.rsid != "")
    ensures var h := HistoryAfter([], ops);
            (h[i].criteria.mid, h[i].criteria.rsid) != (h[j].criteria.mid, h[j].criteria.rsid)
  {
    HistoryAgrees(Initial, [], ops);
    UniqueNames(HistoryAfter([], ops), i, j);
  }

  /** In every run the cached set of MIDs is the one regenerated from the two MID tables. */
  lemma {:induction false} KnownMidsAlwaysFresh(ops: seq<Operation>)
    ensures var t := After(Initial, ops); t.knownMids == KnownMids(t.sinkByMid, t.sinkByMidRsid)
  {
    RunKeepsMidsFresh(Initial, ops);
  }

  // ---- Every sink in a table is registered ----

  ghost predicate LiveSink(h: History, s: Sink) {
    exists i: nat :: Live(h, i) && h[i].sink == s
  }

  /** Only removing the sink itself ends a registration. */
  lemma {:induction false} LiveSinkKept(h: History, e: Event, s: Sink)
    requires LiveSink(h, s) && e != Removed(s)
    ensures LiveSink(h + [e], s)
  {
    var i: nat :| Live(h, i) && h[i].sink == s;
    assert Live(h + [e], i);
  }

  lemma {:induction false} PacketKeepsLive(h: History, p: Packet, s: Sink)
    requires LiveSink(h, s)
    ensures LiveSink(Receive(h, p).0, s)
  {
    var carried := if UseMid(h) then p.midExtension else None;
    var heard := h + [Heard(p.ssrc, carried, p.Rsid())];
    LiveSinkKept(h, Heard(p.ssrc, carried, p.Rsid()), s);
    forall x ensures LiveSink(heard + [Bound(p.ssrc, x)], s) {
      LiveSinkKept(heard, Bound(p.ssrc, x), s);
    }
  }

  lemma {:induction false} StepKeepsLive(t: Tables, h: History, op: Operation, s: Sink)
    requires Agrees(t, h) && (Holds(t, s) ==> LiveSink(h, s)) && Holds(Step(t, op).0, s)
    ensures LiveSink(HistoryStep(h, op).0, s)
  {
    match op {
      case AddSinkOp(c, added) =>
        RejectsAgree(t, h, c);
        if !Rejects(h, c) {
          if added == s {
            assert Live(h + [Added(c, s)], |h|);
          } else {
            if !Holds(t, s) {
              AddKeepsSilent(t, c, added, s);
            }
            LiveSinkKept(h, Added(c, added), s);
          }
        }
      case RemoveSinkOp(removed) =>
        if !Holds(t, s) || removed == s {
          RemoveKeepsSilent(t, removed, s);
        }
        LiveSinkKept(h, Removed(removed), s);
      case PacketOp(p) =>
        if !Holds(t, s) {
          PacketKeepsSilent(t, p, s);
        }
        PacketKeepsLive(h, p, s);
      case SetUseMidOp(b) =>
        LiveSinkKept(h, MidUsed(b), s);
    }
  }

  lemma {:induction false} RunKeepsLive(t: Tables, h: History, ops: seq<Operation>, s: Sink)
    requires Agrees(t, h) && (Holds(t, s) ==> LiveSink(h, s)) && Holds(After(t, ops), s)
    ensures LiveSink(HistoryAfter(h, ops), s)
    decreases |ops|
  {
    if ops != [] {
      StepAgrees(t, h, ops[0]);
      if Holds(Step(t, ops[0]).0, s) {
        StepKeepsLive(t, h, ops[0], s);
      }
      RunKeepsLive(Step(t, ops[0]).0, HistoryStep(h, ops[0]).0, ops[1..], s);
    }
  }

  /** In every run a sink found in any table was added and has not been removed since, learned bindings included. */
  lemma {:induction false} TablesHoldOnlyRegistered(ops: seq<Operation>, s: Sink)
    requires Holds(After(Initial, ops), s)
    ensures exists i: nat :: Live(HistoryAfter([], ops), i) && HistoryAfter([], ops)[i].sink == s
  {
    RunKeepsLive(Initial, [], ops, s);
  }
}
