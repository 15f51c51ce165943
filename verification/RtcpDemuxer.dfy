/** Class RtcpDemuxer of call/rtcp_demuxer.h, and who gets an RTCP packet over every run. */
module RtcpDemuxing {
  import opened Common
  import opened DemuxerHelper
  import T = RtpTables

  type Sink = nat
  type Ssrc = T.Ssrc

  datatype Sinks = Sinks(ssrcSinks: seq<(Ssrc, Sink)>, rsidSinks: seq<(string, Sink)>, broadcastSinks: seq<Sink>)

  const Initial := Sinks([], [], [])

  datatype Operation =
    | AddSsrc(ssrc: Ssrc, sink: Sink)
    | AddRsid(rsid: string, sink: Sink)
    | AddBroadcast(sink: Sink)
    | Remove(sink: Sink)
    | RemoveBroadcast(sink: Sink)
    | BoundToRsid(rsid: string, ssrc: Ssrc)

  /** Associates each sink with the SSRC, except those already associated with it. */
  function Associate(ssrcSinks: seq<(Ssrc, Sink)>, ssrc: Ssrc, sinks: seq<Sink>): seq<(Ssrc, Sink)> {
    if sinks == [] then ssrcSinks
    else
      var last := sinks[|sinks| - 1];
      var front := Associate(ssrcSinks, ssrc, sinks[..|sinks| - 1]);
      if MultimapAssociationExists(front, ssrc, last) then front else front + [(ssrc, last)]
  }

  function Step(d: Sinks, op: Operation): Sinks {
    match op
    case AddSsrc(ssrc, s) => d.(ssrcSinks := d.ssrcSinks + [(ssrc, s)])
    case AddRsid(rsid, s) => d.(rsidSinks := d.rsidSinks + [(rsid, s)])
    case AddBroadcast(s) => d.(broadcastSinks := d.broadcastSinks + [s])
    case Remove(s) => d.(ssrcSinks := WithoutValue(d.ssrcSinks, s), rsidSinks := WithoutValue(d.rsidSinks, s))
    case RemoveBroadcast(s) => d.(broadcastSinks := EraseFirst(d.broadcastSinks, s))
    case BoundToRsid(rsid, ssrc) => d.(ssrcSinks := Associate(d.ssrcSinks, ssrc, EqualRange(d.rsidSinks, rsid)))
  }

  function After(ops: seq<Operation>): Sinks {
    if ops == [] then Initial else Step(After(ops[..|ops| - 1]), ops[|ops| - 1])
  }

  /** The sinks whose handlers are called, in order; a packet too short to name its sender is only broadcast. */
  function Recipients(d: Sinks, senderSsrc: Option<Ssrc>): seq<Sink> {
    (if senderSsrc.Some? then EqualRange(d.ssrcSinks, senderSsrc.value) else []) + d.broadcastSinks
  }

  class RtcpDemuxer {
    var ssrcSinks: seq<(Ssrc, Sink)>
    var rsidSinks: seq<(string, Sink)>
    var broadcastSinks: seq<Sink>

    ghost function State(): Sinks
      reads this
    {
      Sinks(ssrcSinks, rsidSinks, broadcastSinks)
    }

    constructor ()
      ensures State() == Initial
    {
      ssrcSinks, rsidSinks, broadcastSinks := [], [], [];
    }

    method AddSinkForSsrc(senderSsrc: Ssrc, sink: Sink)
      modifies this
      ensures State() == Step(old(State()), AddSsrc(senderSsrc, sink))
    {
      ssrcSinks := ssrcSinks + [(senderSsrc, sink)];
    }

    method AddSinkForRsid(rsid: string, sink: Sink)
      modifies this
      ensures State() == Step(old(State()), AddRsid(rsid, sink))
    {
      rsidSinks := rsidSinks + [(rsid, sink)];
    }

    method AddBroadcastSink(sink: Sink)
      modifies this
      ensures State() == Step(old(State()), AddBroadcast(sink))
    {
      broadcastSinks := broadcastSinks + [sink];
    }

    method RemoveSink(sink: Sink)
      modifies this
      ensures State() == Step(old(State()), Remove(sink))
    {
      var count;
      ssrcSinks, count := RemoveFromMultimapByValue(ssrcSinks, sink);
      rsidSinks, count := RemoveFromMultimapByValue(rsidSinks, sink);
    }

    method RemoveBroadcastSink(sink: Sink)
      modifies this
      ensures State() == Step(old(State()), RemoveBroadcast(sink))
    {
      var it := 0;
      while it < |broadcastSinks| && broadcastSinks[it] != sink
        invariant 0 <= it <= |broadcastSinks|
        invariant EraseFirst(broadcastSinks, sink) == broadcastSinks[..it] + EraseFirst(broadcastSinks[it..], sink)
      {
        it := it + 1;
      }
      if it < |broadcastSinks| {
        broadcastSinks := broadcastSinks[..it] + broadcastSinks[it + 1..];
      }
    }

    method OnSsrcBoundToRsid(rsid: string, ssrc: Ssrc)
      modifies this
      ensures State() == Step(old(State()), BoundToRsid(rsid, ssrc))
    {
      var range := EqualRange(rsidSinks, rsid);
      for it := 0 to |range|
        invariant State() == old(State()).(ssrcSinks := Associate(old(ssrcSinks), ssrc, range[..it]))
      {
        assert range[..it + 1][..it] == range[..it];
        if !MultimapAssociationExists(ssrcSinks, ssrc, range[it]) {
          AddSinkForSsrc(ssrc, range[it]);
        }
      }
      assert range[..|range|] == range;
    }

    /** `called` lists the handler calls that the packet causes. */
    method OnRtcpPacket(senderSsrc: Option<Ssrc>) returns (called: seq<Sink>)
      ensures called == Recipients(State(), senderSsrc)
    {
      called := [];
      if senderSsrc.Some? {
        var range := EqualRange(ssrcSinks, senderSsrc.value);
        for it := 0 to |range|
          invariant called == range[..it]
        {
          called := called + [range[it]];
        }
        assert range[..|range|] == range;
      }
      ghost var bySsrc := called;
      for it := 0 to |broadcastSinks|
        invariant called == bySsrc + broadcastSinks[..it]
      {
        called := called + [broadcastSinks[it]];
      }
    }
  }

  // ---- Who is reached ----

  ghost predicate KeptSince(ops: seq<Operation>, i: nat, sink: Sink) {
    forall j :: i < j < |ops| ==> ops[j] != Remove(sink)
  }

  /** The sink was registered for the RSID and has not been removed since. */
  ghost predicate RsidLive(ops: seq<Operation>, rsid: string, sink: Sink) {
    exists i :: 0 <= i < |ops| && ops[i] == AddRsid(rsid, sink) && KeptSince(ops, i, sink)
  }

  /** The call joined the sink to the SSRC: directly, or by resolving an RSID the sink was then registered for. */
  ghost predicate Joins(ops: seq<Operation>, i: nat, ssrc: Ssrc, sink: Sink)
    requires i < |ops|
  {
    || ops[i] == AddSsrc(ssrc, sink)
    || (ops[i].BoundToRsid? && ops[i].ssrc == ssrc && RsidLive(ops[..i], ops[i].rsid, sink))
  }

  ghost predicate SsrcLive(ops: seq<Operation>, ssrc: Ssrc, sink: Sink) {
    exists i :: 0 <= i < |ops| && Joins(ops, i, ssrc, sink) && KeptSince(ops, i, sink)
  }

  lemma {:induction false} AssociateMember(ssrcSinks: seq<(Ssrc, Sink)>, ssrc: Ssrc, sinks: seq<Sink>, e: (Ssrc, Sink))
    ensures e in Associate(ssrcSinks, ssrc, sinks) <==> e in ssrcSinks || (e.0 == ssrc && e.1 in sinks)
  {
    if sinks != [] {
      var last, front := sinks[|sinks| - 1], sinks[..|sinks| - 1];
      assert sinks == front + [last];
      AssociateMember(ssrcSinks, ssrc, front, e);
      InEqualRange(Associate(ssrcSinks, ssrc, front), ssrc, last);
    }
  }

  /** No association is entered twice: a sink already associated with the SSRC stays as it is. */
  lemma {:induction false} AssociateCount(ssrcSinks: seq<(Ssrc, Sink)>, ssrc: Ssrc, sinks: seq<Sink>, e: (Ssrc, Sink))
    ensures multiset(Associate(ssrcSinks, ssrc, sinks))[e]
         == multiset(ssrcSinks)[e] + if e.0 == ssrc && e.1 in sinks && e !in ssrcSinks then 1 else 0
  {
    if sinks != [] {
      var last, front := sinks[|sinks| - 1], sinks[..|sinks| - 1];
      var before := Associate(ssrcSinks, ssrc, front);
      assert sinks == front + [last];
      AssociateCount(ssrcSinks, ssrc, front, e);
      AssociateMember(ssrcSinks, ssrc, front, e);
      InEqualRange(before, ssrc, last);
      assert multiset(before + [(ssrc, last)]) == multiset(before) + multiset{(ssrc, last)};
    }
  }

  lemma {:induction false} KeptSinceSnoc(ops: seq<Operation>, i: nat, sink: Sink)
    requires i < |ops| - 1
    ensures KeptSince(ops, i, sink) <==> KeptSince(ops[..|ops| - 1], i, sink) && ops[|ops| - 1] != Remove(sink)
  {
  }

  lemma {:induction false} RsidLiveSnoc(ops: seq<Operation>, rsid: string, sink: Sink)
    requires ops != []
    ensures var front, last := ops[..|ops| - 1], ops[|ops| - 1];
            RsidLive(ops, rsid, sink) <==>
              last == AddRsid(rsid, sink) || (RsidLive(front, rsid, sink) && last != Remove(sink))
  {
  }

  lemma {:induction false} SsrcLiveSnoc(ops: seq<Operation>, ssrc: Ssrc, sink: Sink)
    requires ops != []
    ensures var front, last := ops[..|ops| - 1], ops[|ops| - 1];
            SsrcLive(ops, ssrc, sink) <==>
              Joins(ops, |ops| - 1, ssrc, sink) || (SsrcLive(front, ssrc, sink) && last != Remove(sink))
  {
    var front := ops[..|ops| - 1];
    forall i | 0 <= i < |front|
      ensures Joins(ops, i, ssrc, sink) && KeptSince(ops, i, sink)
         <==> Joins(front, i, ssrc, sink) && KeptSince(front, i, sink) && ops[|ops| - 1] != Remove(sink)
    {
      KeptSinceSnoc(ops, i, sink);
      assert front[..i] == ops[..i];
    }
    assert KeptSince(ops, |ops| - 1, sink);
  }

  lemma {:induction false} RsidSinksAreLive(ops: seq<Operation>, rsid: string, sink: Sink)
    ensures (rsid, sink) in After(ops).rsidSinks <==> RsidLive(ops, rsid, sink)
  {
    if ops != [] {
      var front := ops[..|ops| - 1];
      RsidLiveSnoc(ops, rsid, sink);
      RsidSinksAreLive(front, rsid, sink);
      if ops[|ops| - 1].Remove? {
        WithoutValueMember(After(front).rsidSinks, ops[|ops| - 1].sink, (rsid, sink));
      }
    }
  }

  lemma {:induction false} SsrcSinksAreLive(ops: seq<Operation>, ssrc: Ssrc, sink: Sink)
    ensures (ssrc, sink) in After(ops).ssrcSinks <==> SsrcLive(ops, ssrc, sink)
  {
    if ops != [] {
      var front, last := ops[..|ops| - 1], ops[|ops| - 1];
      SsrcLiveSnoc(ops, ssrc, sink);
      SsrcSinksAreLive(front, ssrc, sink);
      if last.Remove? {
        WithoutValueMember(After(front).ssrcSinks, last.sink, (ssrc, sink));
      } else if last.BoundToRsid? {
        AssociateMember(After(front).ssrcSinks, last.ssrc, EqualRange(After(front).rsidSinks, last.rsid), (ssrc, sink));
        InEqualRange(After(front).rsidSinks, last.rsid, sink);
        RsidSinksAreLive(front, last.rsid, sink);
      }
    }
  }

  function BroadcastChange(n: nat, op: Operation, sink: Sink): nat {
    if op == AddBroadcast(sink) then n + 1 else if op == RemoveBroadcast(sink) && n > 0 then n - 1 else n
  }

  /** Calls that add the sink as a broadcast sink, less those that undo one. */
  function BroadcastCount(ops: seq<Operation>, sink: Sink): nat {
    if ops == [] then 0
    else BroadcastChange(BroadcastCount(ops[..|ops| - 1], sink), ops[|ops| - 1], sink)
  }

  lemma {:induction false} BroadcastSinksAreCounted(ops: seq<Operation>, sink: Sink)
    ensures multiset(After(ops).broadcastSinks)[sink] == BroadcastCount(ops, sink)
  {
    if ops != [] {
      BroadcastSinksAreCounted(ops[..|ops| - 1], sink);
      if ops[|ops| - 1].RemoveBroadcast? {
        EraseFirstCount(After(ops[..|ops| - 1]).broadcastSinks, ops[|ops| - 1].sink, sink);
      }
    }
  }

  /**
   How often the sink is associated with the SSRC: once for each AddSsrc since it was last removed, and once for a
   resolution of an RSID it was then registered for, if it was not associated yet.
   */
  ghost function SsrcCount(ops: seq<Operation>, ssrc: Ssrc, sink: Sink): nat {
    if ops == [] then 0
    else
      var front, last := ops[..|ops| - 1], ops[|ops| - 1];
      var n := SsrcCount(front, ssrc, sink);
      if last == AddSsrc(ssrc, sink) then n + 1
      else if last == Remove(sink) then 0
      else if last.BoundToRsid? && last.ssrc == ssrc && RsidLive(front, last.rsid, sink) && n == 0 then 1
      else n
  }

  lemma {:induction false} SsrcSinksAreCounted(ops: seq<Operation>, ssrc: Ssrc, sink: Sink)
    ensures multiset(After(ops).ssrcSinks)[(ssrc, sink)] == SsrcCount(ops, ssrc, sink)
  {
    if ops != [] {
      var front, last := ops[..|ops| - 1], ops[|ops| - 1];
      SsrcSinksAreCounted(front, ssrc, sink);
      match last {
        case AddSsrc(_, _) =>
        case Remove(s) => WithoutValueCount(After(front).ssrcSinks, s, (ssrc, sink));
        case BoundToRsid(rsid, bound) =>
          var range := EqualRange(After(front).rsidSinks, rsid);
          AssociateCount(After(front).ssrcSinks, bound, range, (ssrc, sink));
          InEqualRange(After(front).rsidSinks, rsid, sink);
          RsidSinksAreLive(front, rsid, sink);
        case _ =>
      }
    }
  }

  /**
   Over every run, an RTCP packet is handed to a sink once per broadcast registration and once per association with
   the SSRC that the packet names as its sender.
   */
  lemma {:induction false} CallsExactly(ops: seq<Operation>, senderSsrc: Option<Ssrc>, sink: Sink)
    ensures multiset(Recipients(After(ops), senderSsrc))[sink]
         == BroadcastCount(ops, sink) + if senderSsrc.Some? then SsrcCount(ops, senderSsrc.value, sink) else 0
  {
    BroadcastSinksAreCounted(ops, sink);
    if senderSsrc.Some? {
      EqualRangeCount(After(ops).ssrcSinks, senderSsrc.value, sink);
      SsrcSinksAreCounted(ops, senderSsrc.value, sink);
    }
  }

  /**
   Over every run, an RTCP packet reaches a sink exactly when the sink is a broadcast sink, or the
   packet names its sender and the sink was joined to that SSRC and has not been removed since.
   */
  lemma {:induction false} RecipientsExactly(ops: seq<Operation>, senderSsrc: Option<Ssrc>, sink: Sink)
    ensures sink in Recipients(After(ops), senderSsrc) <==>
              BroadcastCount(ops, sink) > 0 || (senderSsrc.Some? && SsrcLive(ops, senderSsrc.value, sink))
  {
    BroadcastSinksAreCounted(ops, sink);
    if senderSsrc.Some? {
      InEqualRange(After(ops).ssrcSinks, senderSsrc.value, sink);
      SsrcSinksAreLive(ops, senderSsrc.value, sink);
    }
  }

  // ---- Both demuxers together ----

  datatype SessionOp = Rtp(rtp: T.Operation) | Rtcp(rtcp: Operation)

  /** Only the announcement that an RSID alone is bound to an SSRC is handled here. */
  function Heeded(announced: seq<T.Binding>): seq<Operation> {
    if announced == [] then []
    else
      Heeded(announced[..|announced| - 1])
      + match announced[|announced| - 1]
        case BoundToRsid(rsid, ssrc) => [BoundToRsid(rsid, ssrc)]
        case _ => []
  }

  /** The calls that reach the RTCP demuxer while it observes the RTP demuxer. */
  function RtcpCalls(t: T.Tables, ops: seq<SessionOp>): seq<Operation>
    decreases |ops|
  {
    if ops == [] then []
    else match ops[0]
      case Rtcp(op) => [op] + RtcpCalls(t, ops[1..])
      case Rtp(op) =>
        var (t', reply) := T.Step(t, op);
        (if reply.Routed? then Heeded(reply.announced) else []) + RtcpCalls(t', ops[1..])
  }

  lemma {:induction false} RtpNeverRemoves(t: T.Tables, ops: seq<SessionOp>, sink: Sink)
    requires forall i :: 0 <= i < |ops| ==> ops[i] != Rtcp(Remove(sink))
    ensures Remove(sink) !in RtcpCalls(t, ops)
    decreases |ops|
  {
    if ops != [] {
      match ops[0] {
        case Rtcp(op) => RtpNeverRemoves(t, ops[1..], sink);
        case Rtp(op) =>
          var (t', reply) := T.Step(t, op);
          RtpNeverRemoves(t', ops[1..], sink);
          if reply.Routed? {
            HeededOnlyBinds(reply.announced);
          }
      }
    }
  }

  lemma {:induction false} HeededOnlyBinds(announced: seq<T.Binding>)
    ensures forall op :: op in Heeded(announced) ==> op.BoundToRsid?
  {
    if announced != [] {
      HeededOnlyBinds(announced[..|announced| - 1]);
    }
  }

  lemma {:induction false} BindJoins(before: seq<Operation>, rsid: string, ssrc: Ssrc, sink: Sink, rest: seq<Operation>)
    requires RsidLive(before, rsid, sink) && Remove(sink) !in rest
    ensures SsrcLive(before + [BoundToRsid(rsid, ssrc)] + rest, ssrc, sink)
  {
    var ops := before + [BoundToRsid(rsid, ssrc)] + rest;
    assert ops[..|before|] == before;
    assert Joins(ops, |before|, ssrc, sink);
    forall j | |before| < j < |ops| ensures ops[j] != Remove(sink) {
      assert ops[j] == rest[j - |before| - 1];
    }
    assert KeptSince(ops, |before|, sink);
  }

  /** Rule 4 applies: the RSID alone decides where the packet goes. */
  predicate ResolvesRsidAlone(t: T.Tables, p: T.Packet, rsid: string) {
    var learned := T.Learn(t, p);
    var mid := Get(learned.midBySsrc, p.ssrc);
    && !T.UnknownMid(t, p)
    && Get(learned.rsidBySsrc, p.ssrc) == Some(rsid) && rsid in t.sinkByRsid
    && (mid.None? || (T.PacketMid(t, p).None? && p.Rsid().Some? && (mid.value, rsid) !in t.sinkByMidRsid))
  }

  /** And the binding of the packet's SSRC changes: the SSRC table has room and does not hold it yet. */
  predicate Announces(t: T.Tables, p: T.Packet, rsid: string) {
    && ResolvesRsidAlone(t, p, rsid)
    && |t.sinkBySsrc| < T.MAX_SSRC_BINDINGS && Get(t.sinkBySsrc, p.ssrc) != Some(t.sinkByRsid[rsid])
  }

  lemma {:induction false} FoundByRsidAlone(t: T.Tables, p: T.Packet, rsid: string)
    requires !T.UnknownMid(t, p)
    ensures var byIds := T.SinkByIds(T.Learn(t, p), p);
            && (byIds.Some? && byIds.value.1 == T.BoundToRsid(rsid, p.ssrc) <==> ResolvesRsidAlone(t, p, rsid))
            && (ResolvesRsidAlone(t, p, rsid) ==> byIds.value.0 == t.sinkByRsid[rsid])
            && (byIds.Some? ==> byIds.value.1.ssrc == p.ssrc)
  {
  }

  /** What a packet makes the RTP demuxer announce. */
  lemma {:induction false} AnnouncedByPacket(t: T.Tables, p: T.Packet)
    ensures var announced, byIds := T.Resolve(t, p).1.announced, T.SinkByIds(T.Learn(t, p), p);
            if T.UnknownMid(t, p) then announced == []
            else if byIds.Some? then
              announced == if |t.sinkBySsrc| < T.MAX_SSRC_BINDINGS && Get(t.sinkBySsrc, p.ssrc) != Some(byIds.value.0)
                           then [byIds.value.1] else []
            else announced == [] || announced == [T.BoundToPayloadType(p.payloadType, p.ssrc)]
  {
  }

  /** That is exactly when the RTP demuxer tells its observers of the RSID. */
  lemma {:induction false} AnnouncesExactly(t: T.Tables, p: T.Packet, rsid: string)
    ensures T.BoundToRsid(rsid, p.ssrc) in T.Resolve(t, p).1.announced <==> Announces(t, p, rsid)
    ensures |T.Resolve(t, p).1.announced| <= 1
    ensures forall b :: b in T.Resolve(t, p).1.announced && b.BoundToRsid? ==> b.ssrc == p.ssrc
  {
    AnnouncedByPacket(t, p);
    if !T.UnknownMid(t, p) {
      FoundByRsidAlone(t, p, rsid);
    }
  }

  lemma {:induction false} CallsOfPacket(t: T.Tables, p: T.Packet, rest: seq<SessionOp>) returns (t': T.Tables)
    ensures T.Resolve(t, p).1.Routed? && t' == T.Resolve(t, p).0
    ensures RtcpCalls(t, [Rtp(T.PacketOp(p))] + rest) == Heeded(T.Resolve(t, p).1.announced) + RtcpCalls(t', rest)
  {
    t' := T.Resolve(t, p).0;
    assert ([Rtp(T.PacketOp(p))] + rest)[1..] == rest;
  }

  lemma {:induction false} HeededOne(b: T.Binding)
    ensures Heeded([b]) == if b.BoundToRsid? then [BoundToRsid(b.rsid, b.ssrc)] else []
  {
    assert [b][..0] == [];
  }

  /** The calls that one packet causes. */
  lemma {:induction false} CallsAnnounced(t: T.Tables, p: T.Packet, rsid: string)
    ensures Announces(t, p, rsid) ==> Heeded(T.Resolve(t, p).1.announced) == [BoundToRsid(rsid, p.ssrc)]
    ensures var calls := Heeded(T.Resolve(t, p).1.announced);
            calls == [] || (calls[0].BoundToRsid? && calls == [BoundToRsid(calls[0].rsid, p.ssrc)]
                            && Announces(t, p, calls[0].rsid))
  {
    var announced := T.Resolve(t, p).1.announced;
    AnnouncesExactly(t, p, rsid);
    if announced != [] {
      assert announced == [announced[0]];
      HeededOne(announced[0]);
      if announced[0].BoundToRsid? {
        AnnouncesExactly(t, p, announced[0].rsid);
      }
    }
  }

  lemma {:induction false} JoinedIsReached(
    before: seq<Operation>, rsid: string, ssrc: Ssrc, sink: Sink, later: seq<Operation>)
    requires RsidLive(before, rsid, sink)
    requires forall i :: 0 <= i < |later| ==> later[i] != Remove(sink)
    ensures sink in Recipients(After(before + [BoundToRsid(rsid, ssrc)] + later), Some(ssrc))
  {
    BindJoins(before, rsid, ssrc, sink, later);
    RecipientsExactly(before + [BoundToRsid(rsid, ssrc)] + later, Some(ssrc), sink);
  }

  /** What such a packet makes the RTCP demuxer hear first, before any further calls. */
  lemma {:induction false} AnnouncedFirst(t: T.Tables, p: T.Packet, rsid: string, sink: Sink, rest: seq<SessionOp>)
    returns (later: seq<Operation>)
    requires Announces(t, p, rsid)
    requires forall i :: 0 <= i < |rest| ==> rest[i] != Rtcp(Remove(sink))
    ensures RtcpCalls(t, [Rtp(T.PacketOp(p))] + rest) == [BoundToRsid(rsid, p.ssrc)] + later
    ensures forall i :: 0 <= i < |later| ==> later[i] != Remove(sink)
  {
    CallsAnnounced(t, p, rsid);
    var t' := CallsOfPacket(t, p, rest);
    later := RtcpCalls(t', rest);
    RtpNeverRemoves(t', rest, sink);
  }

  /**
   Once the RTP demuxer binds an RSID alone to an SSRC anew, every RTCP packet from that SSRC reaches each
   sink registered for the RSID, after any further calls to both demuxers that do not remove the sink.
   */
  lemma {:induction false} ResolvedRsidReachesSinks(
    before: seq<Operation>, t: T.Tables, p: T.Packet, rsid: string, sink: Sink, rest: seq<SessionOp>)
    requires RsidLive(before, rsid, sink) && Announces(t, p, rsid)
    requires forall i :: 0 <= i < |rest| ==> rest[i] != Rtcp(Remove(sink))
    ensures sink in Recipients(After(before + RtcpCalls(t, [Rtp(T.PacketOp(p))] + rest)), Some(p.ssrc))
  {
    var later := AnnouncedFirst(t, p, rsid, sink, rest);
    JoinedIsReached(before, rsid, p.ssrc, sink, later);
    assert before + ([BoundToRsid(rsid, p.ssrc)] + later) == before + [BoundToRsid(rsid, p.ssrc)] + later;
  }

  lemma {:induction false} BindReaches(before: seq<Operation>, rsid: string, ssrc: Ssrc, sink: Sink)
    ensures sink in Recipients(After(before + [BoundToRsid(rsid, ssrc)]), Some(ssrc))
       <==> sink in Recipients(After(before), Some(ssrc)) || RsidLive(before, rsid, sink)
  {
    var calls := before + [BoundToRsid(rsid, ssrc)];
    assert calls[..|before|] == before;
    RecipientsExactly(before, Some(ssrc), sink);
    RecipientsExactly(calls, Some(ssrc), sink);
    SsrcLiveSnoc(calls, ssrc, sink);
  }

  /**
   A packet makes a sink a recipient for the packet's SSRC exactly if it announces an RSID that the sink is
   registered for.
   */
  lemma {:induction false} ReachedExactly(before: seq<Operation>, t: T.Tables, p: T.Packet, sink: Sink)
    ensures sink in Recipients(After(before + RtcpCalls(t, [Rtp(T.PacketOp(p))] + [])), Some(p.ssrc))
       <==> || sink in Recipients(After(before), Some(p.ssrc))
            || exists rsid :: Announces(t, p, rsid) && RsidLive(before, rsid, sink)
  {
    var calls := CallsOfOnePacket(t, p);
    if calls == [] {
      assert before + calls == before;
    } else {
      BindReaches(before, calls[0].rsid, p.ssrc, sink);
    }
  }

  lemma {:induction false} CallsOfOnePacket(t: T.Tables, p: T.Packet) returns (calls: seq<Operation>)
    ensures calls == RtcpCalls(t, [Rtp(T.PacketOp(p))] + [])
    ensures calls == [] || (calls[0].BoundToRsid? && calls == [BoundToRsid(calls[0].rsid, p.ssrc)])
    ensures forall rsid :: Announces(t, p, rsid) <==> calls == [BoundToRsid(rsid, p.ssrc)]
  {
    var t' := CallsOfPacket(t, p, []);
    calls := Heeded(T.Resolve(t, p).1.announced);
    assert RtcpCalls(t', []) == [];
    CallsAnnounced(t, p, "");
    forall rsid ensures Announces(t, p, rsid) <==> calls == [BoundToRsid(rsid, p.ssrc)] {
      CallsAnnounced(t, p, rsid);
    }
  }

  // ---- Where the promise fails ----

  lemma {:induction false} AfterOne(t: T.Tables, op: T.Operation)
    ensures T.After(t, [op]) == T.Step(t, op).0
  {
    assert [op][1..] == [];
    assert T.After(T.Step(t, op).0, []) == T.Step(t, op).0;
  }

  /** Some RTP sink is registered for the RSID and for the given SSRCs, and nothing else has happened. */
  function OneRsidSink(rsid: string, ssrcs: set<Ssrc>, rtpSink: T.Sink): seq<T.Operation> {
    [T.AddSinkOp(T.Criteria("", rsid, ssrcs, {}), rtpSink)]
  }

  lemma {:induction false} OneRsidSinkTables(rsid: string, ssrcs: set<Ssrc>, rtpSink: T.Sink)
    requires rsid != ""
    ensures var t := T.After(T.Initial, OneRsidSink(rsid, ssrcs, rtpSink));
            && t.sinkByRsid == map[rsid := rtpSink] && t.sinkByMid == map[] && t.sinkByMidRsid == map[]
            && t.sinkBySsrc == (map ssrc | ssrc in ssrcs :: rtpSink) && |t.sinkBySsrc| == |ssrcs|
            && t.midBySsrc == map[] && t.rsidBySsrc == map[]
  {
    var c := T.Criteria("", rsid, ssrcs, {});
    assert !T.CriteriaWouldConflict(T.Initial, c);
    AfterOne(T.Initial, T.AddSinkOp(c, rtpSink));
    assert T.Record(T.Initial, c, rtpSink).sinkBySsrc.Keys == ssrcs;
  }

  /**
   An RTCP sink registered in time still misses an RSID that a packet resolves, exactly when the packet's SSRC
   is already bound to the RTP sink in question or the SSRC table is full.
   */
  lemma {:induction false} MissedWhenBoundOrFull(
    rsid: string, ssrcs: set<Ssrc>, rtpSink: T.Sink, p: T.Packet, sink: Sink)
    requires rsid != "" && p.Rsid() == Some(rsid) && p.midExtension.None?
    ensures var t := T.After(T.Initial, OneRsidSink(rsid, ssrcs, rtpSink));
            && T.Resolve(t, p).1.sink == Some(rtpSink)
            && (sink in Recipients(After([AddRsid(rsid, sink)] + RtcpCalls(t, [Rtp(T.PacketOp(p))] + [])), Some(p.ssrc))
                <==> p.ssrc !in ssrcs && |ssrcs| < T.MAX_SSRC_BINDINGS)
  {
    var t := T.After(T.Initial, OneRsidSink(rsid, ssrcs, rtpSink));
    OneRsidSinkTables(rsid, ssrcs, rtpSink);
    ReachedExactly([AddRsid(rsid, sink)], t, p, sink);
    RegisteredOnly(rsid, p.ssrc, sink);
    assert Announces(t, p, rsid) <==> p.ssrc !in ssrcs && |ssrcs| < T.MAX_SSRC_BINDINGS;
  }

  /** And it misses an RSID that is resolved together with a MID: that announcement is not handled. */
  lemma {:induction false} MissedWithMid(mid: string, rsid: string, rtpSink: T.Sink, p: T.Packet, sink: Sink)
    requires mid != "" && rsid != "" && p.Rsid() == Some(rsid) && p.midExtension == Some(mid)
    ensures var t := T.After(T.Initial, [T.AddSinkOp(T.Criteria(mid, rsid, {}, {}), rtpSink)]);
            && T.Resolve(t, p).1 == T.Routed(Some(rtpSink), [T.BoundToMidRsid(mid, rsid, p.ssrc)])
            && sink !in Recipients(After([AddRsid(rsid, sink)] + RtcpCalls(t, [Rtp(T.PacketOp(p))] + [])), Some(p.ssrc))
  {
    var c := T.Criteria(mid, rsid, {}, {});
    assert !T.CriteriaWouldConflict(T.Initial, c);
    AfterOne(T.Initial, T.AddSinkOp(c, rtpSink));
    var t := T.Record(T.Initial, c, rtpSink);
    assert t.sinkBySsrc == map[] && t.sinkByRsid == map[] && (mid, rsid) in t.sinkByMidRsid;
    assert (mid, rsid).0 in t.knownMids;
    assert T.SinkByIds(T.Learn(t, p), p) == Some((rtpSink, T.BoundToMidRsid(mid, rsid, p.ssrc)));
    ReachedExactly([AddRsid(rsid, sink)], t, p, sink);
    RegisteredOnly(rsid, p.ssrc, sink);
  }

  lemma {:induction false} RegisteredOnly(rsid: string, ssrc: Ssrc, sink: Sink)
    ensures RsidLive([AddRsid(rsid, sink)], rsid, sink)
    ensures forall r :: RsidLive([AddRsid(rsid, sink)], r, sink) ==> r == rsid
    ensures sink !in Recipients(After([AddRsid(rsid, sink)]), Some(ssrc))
  {
    var calls := [AddRsid(rsid, sink)];
    assert calls[0] == AddRsid(rsid, sink) && KeptSince(calls, 0, sink);
    RecipientsExactly(calls, Some(ssrc), sink);
    NeverBroadcast(calls, sink);
    assert !Joins(calls, 0, ssrc, sink);
  }

  /** The packet is the first one to resolve the RSID, which alone names the given sink, to the packet's SSRC. */
  ghost predicate FirstToResolve(t: T.Tables, p: T.Packet, rsid: string, rtpSink: T.Sink) {
    && p.Rsid() == Some(rsid) && p.midExtension.None? && p.ssrc !in t.midBySsrc
    && p.ssrc !in t.sinkBySsrc && |t.sinkBySsrc| < T.MAX_SSRC_BINDINGS
    && Get(t.sinkByRsid, rsid) == Some(rtpSink)
  }

  lemma {:induction false} RsidResolvedOnce(t: T.Tables, p: T.Packet, rsid: string, rtpSink: T.Sink)
    requires FirstToResolve(t, p, rsid, rtpSink)
    ensures T.Resolve(t, p).1 == T.Routed(Some(rtpSink), [T.BoundToRsid(rsid, p.ssrc)])
    ensures T.Resolve(T.Resolve(t, p).0, p).1 == T.Routed(Some(rtpSink), [])
  {
  }

  /**
   The promise fails for a sink registered for an RSID only after the RSID was resolved: the RTP
   demuxer announces a binding only when it changes, so the sink hears nothing from that SSRC.
   */
  lemma {:induction false} LateRsidSinkIsMissed(t: T.Tables, p: T.Packet, rsid: string, rtpSink: T.Sink, sink: Sink)
    requires FirstToResolve(t, p, rsid, rtpSink)
    ensures var packet := Rtp(T.PacketOp(p));
            var calls := RtcpCalls(t, [packet] + ([Rtcp(AddRsid(rsid, sink))] + ([packet] + [])));
            RsidLive(calls, rsid, sink) && sink !in Recipients(After(calls), Some(p.ssrc))
  {
    LateTrace(t, p, rsid, rtpSink, sink);
    LateCalls(rsid, p.ssrc, sink);
  }

  lemma {:induction false} LateTrace(t: T.Tables, p: T.Packet, rsid: string, rtpSink: T.Sink, sink: Sink)
    requires FirstToResolve(t, p, rsid, rtpSink)
    ensures var packet := Rtp(T.PacketOp(p));
            RtcpCalls(t, [packet] + ([Rtcp(AddRsid(rsid, sink))] + ([packet] + [])))
            == [BoundToRsid(rsid, p.ssrc), AddRsid(rsid, sink)]
  {
    RsidResolvedOnce(t, p, rsid, rtpSink);
    var packet, late: SessionOp := Rtp(T.PacketOp(p)), Rtcp(AddRsid(rsid, sink));
    var t1 := CallsOfPacket(t, p, [late] + ([packet] + []));
    var t2 := CallsOfPacket(t1, p, []);
    assert ([late] + ([packet] + []))[1..] == [packet] + [];
    assert RtcpCalls(t1, [packet] + []) == [];
    assert [T.BoundToRsid(rsid, p.ssrc)][..0] == [];
  }

  /** Such a state is reachable. */
  lemma {:induction false} LateRsidSinkIsMissedInARun(rsid: string, p: T.Packet, rtpSink: T.Sink, sink: Sink)
    requires rsid != "" && p.Rsid() == Some(rsid) && p.midExtension.None?
    ensures var t := T.After(T.Initial, OneRsidSink(rsid, {}, rtpSink));
            var packet := Rtp(T.PacketOp(p));
            var calls := RtcpCalls(t, [packet] + ([Rtcp(AddRsid(rsid, sink))] + ([packet] + [])));
            RsidLive(calls, rsid, sink) && sink !in Recipients(After(calls), Some(p.ssrc))
  {
    OneRsidSinkTables(rsid, {}, rtpSink);
    LateRsidSinkIsMissed(T.After(T.Initial, OneRsidSink(rsid, {}, rtpSink)), p, rsid, rtpSink, sink);
  }

  lemma {:induction false} NeverBroadcast(ops: seq<Operation>, sink: Sink)
    requires AddBroadcast(sink) !in ops
    ensures BroadcastCount(ops, sink) == 0
  {
    if ops != [] {
      NeverBroadcast(ops[..|ops| - 1], sink);
    }
  }

  lemma {:induction false} LateCalls(rsid: string, ssrc: Ssrc, sink: Sink)
    ensures var calls := [BoundToRsid(rsid, ssrc), AddRsid(rsid, sink)];
            RsidLive(calls, rsid, sink) && sink !in Recipients(After(calls), Some(ssrc))
  {
    var calls := [BoundToRsid(rsid, ssrc), AddRsid(rsid, sink)];
    assert calls[1] == AddRsid(rsid, sink) && KeptSince(calls, 1, sink);
    RecipientsExactly(calls, Some(ssrc), sink);
    NeverBroadcast(calls, sink);
    assert calls[..0] == [];
    assert !Joins(calls, 0, ssrc, sink) && !Joins(calls, 1, ssrc, sink);
  }

  // ---- Recipients, read off the calls to both demuxers ----

  /** The RTP demuxer's tables after the calls. */
  function TablesAfter(t: T.Tables, ops: seq<SessionOp>): T.Tables {
    if ops == [] then t
    else
      var before, last := TablesAfter(t, ops[..|ops| - 1]), ops[|ops| - 1];
      if last.Rtp? then T.Step(before, last.rtp).0 else before
  }

  ghost predicate KeptInSession(ops: seq<SessionOp>, i: nat, sink: Sink) {
    forall j :: i < j < |ops| ==> ops[j] != Rtcp(Remove(sink))
  }

  ghost predicate RegisteredInSession(ops: seq<SessionOp>, rsid: string, sink: Sink) {
    exists i :: 0 <= i < |ops| && ops[i] == Rtcp(AddRsid(rsid, sink)) && KeptInSession(ops, i, sink)
  }

  /** The RSID is resolved to the SSRC: by a packet that the RTP demuxer announces it for, or by a direct call. */
  ghost predicate Resolves(t: T.Tables, op: SessionOp, rsid: string, ssrc: Ssrc) {
    || (op.Rtp? && op.rtp.PacketOp? && op.rtp.packet.ssrc == ssrc && Announces(t, op.rtp.packet, rsid))
    || op == Rtcp(BoundToRsid(rsid, ssrc))
  }

  ghost predicate JoinsInSession(t: T.Tables, ops: seq<SessionOp>, i: nat, ssrc: Ssrc, sink: Sink)
    requires i < |ops|
  {
    || ops[i] == Rtcp(AddSsrc(ssrc, sink))
    || exists rsid :: Resolves(TablesAfter(t, ops[..i]), ops[i], rsid, ssrc)
                      && RegisteredInSession(ops[..i], rsid, sink)
  }

  ghost predicate JoinedInSession(t: T.Tables, ops: seq<SessionOp>, ssrc: Ssrc, sink: Sink) {
    exists i :: 0 <= i < |ops| && JoinsInSession(t, ops, i, ssrc, sink) && KeptInSession(ops, i, sink)
  }

  /** The calls made to the RTCP demuxer directly. */
  function DirectCalls(ops: seq<SessionOp>): seq<Operation> {
    if ops == [] then []
    else DirectCalls(ops[..|ops| - 1]) + if ops[|ops| - 1].Rtcp? then [ops[|ops| - 1].rtcp] else []
  }

  function CallsOf(t: T.Tables, op: SessionOp): seq<Operation> {
    match op
    case Rtcp(op) => [op]
    case Rtp(op) => var reply := T.Step(t, op).1; if reply.Routed? then Heeded(reply.announced) else []
  }

  lemma {:induction false} RtcpCallsSnoc(t: T.Tables, ops: seq<SessionOp>, op: SessionOp)
    ensures RtcpCalls(t, ops + [op]) == RtcpCalls(t, ops) + CallsOf(TablesAfter(t, ops), op)
    decreases |ops|
  {
    if ops == [] {
      assert ([] + [op])[1..] == [];
    } else {
      var t' := if ops[0].Rtp? then T.Step(t, ops[0].rtp).0 else t;
      assert (ops + [op])[1..] == ops[1..] + [op];
      RtcpCallsSnoc(t', ops[1..], op);
      TablesAfterCons(t, ops);
    }
  }

  lemma {:induction false} TablesAfterCons(t: T.Tables, ops: seq<SessionOp>)
    requires ops != []
    ensures TablesAfter(t, ops) == TablesAfter(if ops[0].Rtp? then T.Step(t, ops[0].rtp).0 else t, ops[1..])
    decreases |ops|
  {
    if |ops| == 1 {
      assert ops[..0] == [] && ops[1..] == [];
    } else {
      var front := ops[..|ops| - 1];
      TablesAfterCons(t, front);
      assert ops[1..][..|ops| - 2] == front[1..];
    }
  }

  lemma {:induction false} CallsOfRtpPacket(t: T.Tables, p: T.Packet, rsid: string, ssrc: Ssrc)
    ensures var calls := Heeded(T.Resolve(t, p).1.announced);
            && |calls| <= 1 && (forall c :: c in calls ==> c.BoundToRsid?)
            && (BoundToRsid(rsid, ssrc) in calls <==> ssrc == p.ssrc && Announces(t, p, rsid))
  {
    CallsAnnounced(t, p, rsid);
  }

  /** One call to either demuxer is at most one call to this one. */
  lemma {:induction false} CallsOfOne(t: T.Tables, op: SessionOp)
    ensures |CallsOf(t, op)| <= 1
    ensures forall c: Operation :: !c.BoundToRsid? ==> (c in CallsOf(t, op) <==> op == Rtcp(c))
  {
    if op.Rtp? && op.rtp.PacketOp? {
      CallsOfRtpPacket(t, op.rtp.packet, "", 0);
    }
  }

  lemma {:induction false} ResolvesExactly(t: T.Tables, op: SessionOp, rsid: string, ssrc: Ssrc)
    ensures BoundToRsid(rsid, ssrc) in CallsOf(t, op) <==> Resolves(t, op, rsid, ssrc)
  {
    if op.Rtp? && op.rtp.PacketOp? {
      CallsOfRtpPacket(t, op.rtp.packet, rsid, ssrc);
    }
  }

  lemma {:induction false} OneMoreCall(
    before: seq<Operation>, calls: seq<Operation>, ssrc: Ssrc, rsid: string, sink: Sink)
    requires |calls| <= 1
    ensures RsidLive(before + calls, rsid, sink)
       <==> AddRsid(rsid, sink) in calls || (RsidLive(before, rsid, sink) && Remove(sink) !in calls)
    ensures SsrcLive(before + calls, ssrc, sink)
       <==> || AddSsrc(ssrc, sink) in calls
            || (exists r :: BoundToRsid(r, ssrc) in calls && RsidLive(before, r, sink))
            || (SsrcLive(before, ssrc, sink) && Remove(sink) !in calls)
  {
    var all := before + calls;
    if calls == [] {
      assert all == before;
    } else {
      assert calls == [calls[0]] && all[..|all| - 1] == before;
      RsidLiveSnoc(all, rsid, sink);
      SsrcLiveSnoc(all, ssrc, sink);
      assert all[|all| - 1] == calls[0];
    }
  }

  lemma {:induction false} RegisteredSnoc(ops: seq<SessionOp>, rsid: string, sink: Sink)
    requires ops != []
    ensures var front, last := ops[..|ops| - 1], ops[|ops| - 1];
            RegisteredInSession(ops, rsid, sink) <==>
              || last == Rtcp(AddRsid(rsid, sink))
              || (RegisteredInSession(front, rsid, sink) && last != Rtcp(Remove(sink)))
  {
    var front := ops[..|ops| - 1];
    forall i | 0 <= i < |front|
      ensures KeptInSession(ops, i, sink) <==> KeptInSession(front, i, sink) && ops[|ops| - 1] != Rtcp(Remove(sink))
    {
      KeptInSessionSnoc(ops, i, sink);
    }
    assert KeptInSession(ops, |ops| - 1, sink);
  }

  lemma {:induction false} KeptInSessionSnoc(ops: seq<SessionOp>, i: nat, sink: Sink)
    requires i < |ops| - 1
    ensures KeptInSession(ops, i, sink)
       <==> KeptInSession(ops[..|ops| - 1], i, sink) && ops[|ops| - 1] != Rtcp(Remove(sink))
  {
  }

  lemma {:induction false} JoinedSnoc(t: T.Tables, ops: seq<SessionOp>, ssrc: Ssrc, sink: Sink)
    requires ops != []
    ensures var front, last := ops[..|ops| - 1], ops[|ops| - 1];
            JoinedInSession(t, ops, ssrc, sink) <==>
              || JoinsInSession(t, ops, |ops| - 1, ssrc, sink)
              || (JoinedInSession(t, front, ssrc, sink) && last != Rtcp(Remove(sink)))
  {
    var front := ops[..|ops| - 1];
    forall i | 0 <= i < |front|
      ensures JoinsInSession(t, ops, i, ssrc, sink) && KeptInSession(ops, i, sink)
         <==> JoinsInSession(t, front, i, ssrc, sink) && KeptInSession(front, i, sink)
              && ops[|ops| - 1] != Rtcp(Remove(sink))
    {
      KeptInSessionSnoc(ops, i, sink);
      assert front[..i] == ops[..i];
    }
    assert KeptInSession(ops, |ops| - 1, sink);
  }

  lemma {:induction false} SplitLast(t: T.Tables, ops: seq<SessionOp>)
    requires ops != []
    ensures RtcpCalls(t, ops)
         == RtcpCalls(t, ops[..|ops| - 1]) + CallsOf(TablesAfter(t, ops[..|ops| - 1]), ops[|ops| - 1])
  {
    assert ops == ops[..|ops| - 1] + [ops[|ops| - 1]];
    RtcpCallsSnoc(t, ops[..|ops| - 1], ops[|ops| - 1]);
  }

  lemma {:induction false} RegisteredIsLive(t: T.Tables, ops: seq<SessionOp>, rsid: string, sink: Sink)
    ensures RsidLive(RtcpCalls(t, ops), rsid, sink) <==> RegisteredInSession(ops, rsid, sink)
  {
    if ops != [] {
      var front, last := ops[..|ops| - 1], ops[|ops| - 1];
      SplitLast(t, ops);
      RegisteredIsLive(t, front, rsid, sink);
      RegisteredSnoc(ops, rsid, sink);
      CallsOfOne(TablesAfter(t, front), last);
      OneMoreCall(RtcpCalls(t, front), CallsOf(TablesAfter(t, front), last), 0, rsid, sink);
    }
  }

  lemma {:induction false} LastCallJoins(t: T.Tables, ops: seq<SessionOp>, ssrc: Ssrc, sink: Sink)
    requires ops != []
    ensures var front, last := ops[..|ops| - 1], ops[|ops| - 1];
            var calls := CallsOf(TablesAfter(t, front), last);
            JoinsInSession(t, ops, |ops| - 1, ssrc, sink) <==>
              || AddSsrc(ssrc, sink) in calls
              || exists r :: BoundToRsid(r, ssrc) in calls && RsidLive(RtcpCalls(t, front), r, sink)
  {
    var front, last := ops[..|ops| - 1], ops[|ops| - 1];
    CallsOfOne(TablesAfter(t, front), last);
    forall rsid
      ensures RsidLive(RtcpCalls(t, front), rsid, sink) <==> RegisteredInSession(front, rsid, sink)
      ensures BoundToRsid(rsid, ssrc) in CallsOf(TablesAfter(t, front), last)
         <==> Resolves(TablesAfter(t, front), last, rsid, ssrc)
    {
      RegisteredIsLive(t, front, rsid, sink);
      ResolvesExactly(TablesAfter(t, front), last, rsid, ssrc);
    }
  }

  lemma {:induction false} JoinedIsLive(t: T.Tables, ops: seq<SessionOp>, ssrc: Ssrc, sink: Sink)
    ensures SsrcLive(RtcpCalls(t, ops), ssrc, sink) <==> JoinedInSession(t, ops, ssrc, sink)
  {
    if ops != [] {
      var front, last := ops[..|ops| - 1], ops[|ops| - 1];
      SplitLast(t, ops);
      JoinedIsLive(t, front, ssrc, sink);
      JoinedSnoc(t, ops, ssrc, sink);
      LastCallJoins(t, ops, ssrc, sink);
      CallsOfOne(TablesAfter(t, front), last);
      OneMoreCall(RtcpCalls(t, front), CallsOf(TablesAfter(t, front), last), ssrc, "", sink);
    }
  }

  lemma {:induction false} BroadcastCountSnoc(ops: seq<Operation>, op: Operation, sink: Sink)
    ensures BroadcastCount(ops + [op], sink) == BroadcastChange(BroadcastCount(ops, sink), op, sink)
  {
    assert (ops + [op])[..|ops|] == ops;
  }

  lemma {:induction false} OtherCallsKeepCount(before: seq<Operation>, calls: seq<Operation>, sink: Sink)
    requires |calls| <= 1 && AddBroadcast(sink) !in calls && RemoveBroadcast(sink) !in calls
    ensures BroadcastCount(before + calls, sink) == BroadcastCount(before, sink)
  {
    if calls == [] {
      assert before + calls == before;
    } else {
      assert calls == [calls[0]] && calls[0] in calls;
      BroadcastCountSnoc(before, calls[0], sink);
    }
  }

  lemma {:induction false} BroadcastCountsDirect(t: T.Tables, ops: seq<SessionOp>, sink: Sink)
    ensures BroadcastCount(RtcpCalls(t, ops), sink) == BroadcastCount(DirectCalls(ops), sink)
  {
    if ops != [] {
      var front, last := ops[..|ops| - 1], ops[|ops| - 1];
      SplitLast(t, ops);
      BroadcastCountsDirect(t, front, sink);
      if last.Rtcp? {
        BroadcastCountSnoc(RtcpCalls(t, front), last.rtcp, sink);
        BroadcastCountSnoc(DirectCalls(front), last.rtcp, sink);
      } else {
        assert DirectCalls(front) + [] == DirectCalls(front);
        CallsOfOne(TablesAfter(t, front), last);
        OtherCallsKeepCount(RtcpCalls(t, front), CallsOf(TablesAfter(t, front), last), sink);
      }
    }
  }

  /**
   Over every run of both demuxers, an RTCP packet reaches a sink exactly when the sink is a broadcast sink, or was
   joined to the sender's SSRC and not removed since: directly, or when a packet made the RTP demuxer announce an
   RSID that the sink was registered for at that moment.
   */
  lemma {:induction false} SessionRecipientsExactly(
    t: T.Tables, ops: seq<SessionOp>, senderSsrc: Option<Ssrc>, sink: Sink)
    ensures sink in Recipients(After(RtcpCalls(t, ops)), senderSsrc) <==>
              || BroadcastCount(DirectCalls(ops), sink) > 0
              || (senderSsrc.Some? && JoinedInSession(t, ops, senderSsrc.value, sink))
  {
    RecipientsExactly(RtcpCalls(t, ops), senderSsrc, sink);
    BroadcastCountsDirect(t, ops, sink);
    if senderSsrc.Some? {
      JoinedIsLive(t, ops, senderSsrc.value, sink);
    }
  }

  /** `SsrcCount`, read off the calls to both demuxers. */
  ghost function SessionCount(t: T.Tables, ops: seq<SessionOp>, ssrc: Ssrc, sink: Sink): nat {
    if ops == [] then 0
    else
      var front, last := ops[..|ops| - 1], ops[|ops| - 1];
      var n := SessionCount(t, front, ssrc, sink);
      if last == Rtcp(AddSsrc(ssrc, sink)) then n + 1
      else if last == Rtcp(Remove(sink)) then 0
      else if n == 0 && JoinsInSession(t, ops, |ops| - 1, ssrc, sink) then 1
      else n
  }

  /** One more call, or none. */
  lemma {:induction false} SsrcCountOneMore(before: seq<Operation>, calls: seq<Operation>, ssrc: Ssrc, sink: Sink)
    requires |calls| <= 1
    ensures var n := SsrcCount(before, ssrc, sink);
            SsrcCount(before + calls, ssrc, sink) ==
              if AddSsrc(ssrc, sink) in calls then n + 1
              else if Remove(sink) in calls then 0
              else if n == 0 && exists r :: BoundToRsid(r, ssrc) in calls && RsidLive(before, r, sink) then 1
              else n
  {
    var all := before + calls;
    if calls == [] {
      assert all == before;
    } else {
      assert calls == [calls[0]] && all[..|all| - 1] == before && all[|all| - 1] == calls[0];
    }
  }

  lemma {:induction false} SessionCountIsSsrcCount(t: T.Tables, ops: seq<SessionOp>, ssrc: Ssrc, sink: Sink)
    ensures SsrcCount(RtcpCalls(t, ops), ssrc, sink) == SessionCount(t, ops, ssrc, sink)
  {
    if ops != [] {
      var front, last := ops[..|ops| - 1], ops[|ops| - 1];
      SplitLast(t, ops);
      SessionCountIsSsrcCount(t, front, ssrc, sink);
      LastCallJoins(t, ops, ssrc, sink);
      CallsOfOne(TablesAfter(t, front), last);
      SsrcCountOneMore(RtcpCalls(t, front), CallsOf(TablesAfter(t, front), last), ssrc, sink);
    }
  }

  /** And how often: once per broadcast registration and once per association, over every run of both demuxers. */
  lemma {:induction false} SessionCallsExactly(
    t: T.Tables, ops: seq<SessionOp>, senderSsrc: Option<Ssrc>, sink: Sink)
    ensures multiset(Recipients(After(RtcpCalls(t, ops)), senderSsrc))[sink]
         == BroadcastCount(DirectCalls(ops), sink)
            + if senderSsrc.Some? then SessionCount(t, ops, senderSsrc.value, sink) else 0
  {
    CallsExactly(RtcpCalls(t, ops), senderSsrc, sink);
    BroadcastCountsDirect(t, ops, sink);
    if senderSsrc.Some? {
      SessionCountIsSsrcCount(t, ops, senderSsrc.value, sink);
    }
  }
}
