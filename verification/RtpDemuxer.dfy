/** Class RtpDemuxer of call/rtp_demuxer.h: the operations of `RtpTables`, performed in place. */
module RtpDemuxing {
  import opened Common
  import opened DemuxerHelper
  import T = RtpTables

  class RtpDemuxer {
    var sinkByMid: map<string, T.Sink>
    var sinkBySsrc: map<T.Ssrc, T.Sink>
    var sinksByPt: seq<(T.PayloadType, T.Sink)>
    var sinkByMidRsid: map<(string, string), T.Sink>
    var sinkByRsid: map<string, T.Sink>
    var knownMids: set<string>
    var midBySsrc: map<T.Ssrc, string>
    var rsidBySsrc: map<T.Ssrc, string>
    var useMid: bool

    ghost function Tables(): T.Tables
      reads this
    {
      T.Tables(sinkByMid, sinkBySsrc, sinksByPt, sinkByMidRsid, sinkByRsid, knownMids, midBySsrc, rsidBySsrc, useMid)
    }

    constructor ()
      ensures Tables() == T.Initial
    {
      sinkByMid, sinkBySsrc, sinksByPt, sinkByMidRsid, sinkByRsid := map[], map[], [], map[], map[];
      knownMids, midBySsrc, rsidBySsrc, useMid := {}, map[], map[], true;
    }

    method SetUseMid(b: bool)
      modifies this
      ensures useMid == b && Tables() == T.Step(old(Tables()), T.SetUseMidOp(b)).0
    {
      useMid := b;
    }

    method CriteriaWouldConflict(criteria: T.Criteria) returns (conflict: bool)
      ensures conflict == T.CriteriaWouldConflict(Tables(), criteria)
    {
      if criteria.mid != "" && criteria.rsid == "" && criteria.mid in knownMids {
        return true;
      }
      if criteria.mid == "" && criteria.rsid != "" && criteria.rsid in sinkByRsid {
        return true;
      }
      if criteria.mid != "" && criteria.rsid != "" && (criteria.mid, criteria.rsid) in sinkByMidRsid {
        return true;
      }
      var toCheck := criteria.ssrcs;
      while toCheck != {}
        invariant toCheck <= criteria.ssrcs
        invariant forall ssrc :: ssrc in criteria.ssrcs && ssrc !in toCheck ==> ssrc !in sinkBySsrc
        decreases toCheck
      {
        var ssrc :| ssrc in toCheck;
        if ssrc in sinkBySsrc {
          return true;
        }
        toCheck := toCheck - {ssrc};
      }
      return false;
    }

    method RefreshKnownMids()
      modifies this`knownMids
      ensures Tables() == T.RefreshKnownMids(old(Tables()))
    {
      knownMids := sinkByMid.Keys;
      var toVisit := sinkByMidRsid.Keys;
      while toVisit != {}
        invariant toVisit <= sinkByMidRsid.Keys
        invariant knownMids == sinkByMid.Keys + set key | key in sinkByMidRsid.Keys - toVisit :: key.0
        decreases toVisit
      {
        var key :| key in toVisit;
        assert sinkByMidRsid.Keys - (toVisit - {key}) == (sinkByMidRsid.Keys - toVisit) + {key};
        toVisit := toVisit - {key};
        knownMids := knownMids + {key.0};
      }
      assert sinkByMidRsid.Keys - {} == sinkByMidRsid.Keys;
    }

    method AddSink(criteria: T.Criteria, sink: T.Sink) returns (added: bool)
      modifies this
      ensures (Tables(), added) == T.AddSink(old(Tables()), criteria, sink)
      ensures added <==> !T.CriteriaWouldConflict(old(Tables()), criteria)
      ensures !added ==> Tables() == old(Tables())
    {
      var conflict := CriteriaWouldConflict(criteria);
      if conflict {
        return false;
      }
      if criteria.mid != "" {
        if criteria.rsid == "" {
          sinkByMid := sinkByMid[criteria.mid := sink];
        } else {
          sinkByMidRsid := sinkByMidRsid[(criteria.mid, criteria.rsid) := sink];
        }
      } else if criteria.rsid != "" {
        sinkByRsid := sinkByRsid[criteria.rsid := sink];
      }
      AddSsrcs(criteria.ssrcs, sink);
      AddPayloadTypes(criteria.payloadTypes, sink);
      RefreshKnownMids();
      return true;
    }

    method AddSsrcs(ssrcs: set<T.Ssrc>, sink: T.Sink)
      modifies this`sinkBySsrc
      ensures sinkBySsrc == old(sinkBySsrc) + map ssrc | ssrc in ssrcs :: sink
    {
      var toAdd := ssrcs;
      while toAdd != {}
        invariant toAdd <= ssrcs
        invariant sinkBySsrc == old(sinkBySsrc) + map ssrc | ssrc in ssrcs - toAdd :: sink
        decreases toAdd
      {
        var ssrc :| ssrc in toAdd;
        toAdd := toAdd - {ssrc};
        sinkBySsrc := sinkBySsrc[ssrc := sink];
      }
    }

    method AddPayloadTypes(payloadTypes: set<T.PayloadType>, sink: T.Sink)
      modifies this`sinksByPt
      ensures sinksByPt == T.WithPayloadTypes(old(sinksByPt), payloadTypes, sink, 256)
    {
      for pt := 0 to 256
        invariant sinksByPt == T.WithPayloadTypes(old(sinksByPt), payloadTypes, sink, pt)
      {
        if pt in payloadTypes {
          sinksByPt := sinksByPt + [(pt, sink)];
        }
      }
    }

    method RemoveSink(sink: T.Sink) returns (removed: bool)
      modifies this
      ensures (Tables(), removed) == T.RemoveSink(old(Tables()), sink)
      ensures (removed <==> T.Holds(old(Tables()), sink)) && !T.Holds(Tables(), sink)
    {
      var names := EraseNames(sink);
      var bindings := EraseBindings(sink);
      assert names + bindings > 0 <==> T.Holds(old(Tables()), sink);
      RefreshKnownMids();
      removed := names + bindings > 0;
    }

    method EraseNames(sink: T.Sink) returns (count: nat)
      modifies this`sinkByMid, this`sinkByMidRsid, this`sinkByRsid
      ensures sinkByMid == MapWithoutValue(old(sinkByMid), sink)
      ensures sinkByMidRsid == MapWithoutValue(old(sinkByMidRsid), sink)
      ensures sinkByRsid == MapWithoutValue(old(sinkByRsid), sink)
      ensures count > 0 <==>
              || MapHasValue(old(sinkByMid), sink)
              || MapHasValue(old(sinkByMidRsid), sink)
              || MapHasValue(old(sinkByRsid), sink)
    {
      var mids, pairs, rsids;
      sinkByMid, mids := RemoveFromMapByValue(sinkByMid, sink);
      sinkByMidRsid, pairs := RemoveFromMapByValue(sinkByMidRsid, sink);
      sinkByRsid, rsids := RemoveFromMapByValue(sinkByRsid, sink);
      count := mids + pairs + rsids;
    }

    method EraseBindings(sink: T.Sink) returns (count: nat)
      modifies this`sinkBySsrc, this`sinksByPt
      ensures sinkBySsrc == MapWithoutValue(old(sinkBySsrc), sink)
      ensures sinksByPt == WithoutValue(old(sinksByPt), sink) && !MultimapHasValue(sinksByPt, sink)
      ensures count > 0 <==> MapHasValue(old(sinkBySsrc), sink) || MultimapHasValue(old(sinksByPt), sink)
    {
      var ssrcs, pts;
      sinkBySsrc, ssrcs := RemoveFromMapByValue(sinkBySsrc, sink);
      sinksByPt, pts := RemoveFromMultimapByValue(sinksByPt, sink);
      count := ssrcs + pts;
    }

    method AddSsrcSinkBinding(ssrc: T.Ssrc, sink: T.Sink) returns (changed: bool)
      modifies this`sinkBySsrc
      ensures (Tables(), changed) == T.Bind(old(Tables()), ssrc, sink)
    {
      if |sinkBySsrc| >= T.MAX_SSRC_BINDINGS {
        return false;
      }
      changed := ssrc !in sinkBySsrc || sinkBySsrc[ssrc] != sink;
      if changed {
        sinkBySsrc := sinkBySsrc[ssrc := sink];
      }
    }

    /** Binds the SSRC to the sink and tells the observers if that is new. */
    method BindAndForward(ssrc: T.Ssrc, sink: T.Sink, binding: T.Binding)
      returns (result: Option<T.Sink>, announced: seq<T.Binding>)
      modifies this`sinkBySsrc
      ensures (Tables(), T.Routed(result, announced)) == T.BindAndForward(old(Tables()), ssrc, (sink, binding))
    {
      var changed := AddSsrcSinkBinding(ssrc, sink);
      result, announced := Some(sink), if changed then [binding] else [];
    }

    /** ResolveSink: the sink that gets the packet, and what the registered observers are told. */
    method ResolveSink(packet: T.Packet) returns (sink: Option<T.Sink>, announced: seq<T.Binding>)
      modifies this
      ensures (Tables(), T.Routed(sink, announced)) == T.Resolve(old(Tables()), packet)
    {
      var packetMid := if useMid then packet.midExtension else None;
      if packetMid.Some? && packetMid.value !in knownMids {
        return None, [];
      }
      var ssrc := packet.ssrc;
      if packetMid.Some? {
        midBySsrc := midBySsrc[ssrc := packetMid.value];
      }
      if packet.Rsid().Some? {
        rsidBySsrc := rsidBySsrc[ssrc := packet.Rsid().value];
      }
      ghost var learned := Tables();
      assert learned == T.Learn(old(Tables()), packet);
      var mid, rsid := Get(midBySsrc, ssrc), Get(rsidBySsrc, ssrc);
      if mid.Some? && rsid.Some? && (mid.value, rsid.value) in sinkByMidRsid {
        sink, announced := BindAndForward(ssrc, sinkByMidRsid[(mid.value, rsid.value)],
                                          T.BoundToMidRsid(mid.value, rsid.value, ssrc));
        return;
      }
      if mid.Some? && packet.Rsid().None? && (packetMid.Some? || rsid.None?) && mid.value in sinkByMid {
        sink, announced := BindAndForward(ssrc, sinkByMid[mid.value], T.BoundToMid(mid.value, ssrc));
        return;
      }
      if rsid.Some? && packetMid.None? && (packet.Rsid().Some? || mid.None?) && rsid.value in sinkByRsid {
        sink, announced := BindAndForward(ssrc, sinkByRsid[rsid.value], T.BoundToRsid(rsid.value, ssrc));
        return;
      }
      assert T.SinkByIds(learned, packet) == None;
      if ssrc in sinkBySsrc {
        return Some(sinkBySsrc[ssrc]), [];
      }
      var sinks := EqualRange(sinksByPt, packet.payloadType);
      if |sinks| == 1 {
        sink, announced := BindAndForward(ssrc, sinks[0], T.BoundToPayloadType(packet.payloadType, ssrc));
        return;
      }
      return None, [];
    }

    /** `sink` is the one whose handler is called, if any. */
    method OnRtpPacket(packet: T.Packet)
      returns (forwarded: bool, sink: Option<T.Sink>, announced: seq<T.Binding>)
      modifies this
      ensures (Tables(), T.Routed(sink, announced)) == T.Resolve(old(Tables()), packet)
      ensures forwarded <==> sink.Some?
    {
      sink, announced := ResolveSink(packet);
      forwarded := sink.Some?;
    }

    method AddSinkForSsrc(ssrc: T.Ssrc, sink: T.Sink) returns (added: bool)
      modifies this
      ensures (Tables(), added) == T.AddSink(old(Tables()), T.Criteria("", "", {ssrc}, {}), sink)
      ensures added <==> ssrc !in old(sinkBySsrc)
      ensures sinkBySsrc == if added then old(sinkBySsrc)[ssrc := sink] else old(sinkBySsrc)
    {
      added := AddSink(T.Criteria("", "", {ssrc}, {}), sink);
    }

    method AddSinkForRsid(rsid: string, sink: T.Sink)
      modifies this
      ensures Tables() == T.AddSink(old(Tables()), T.Criteria("", rsid, {}, {}), sink).0
    {
      var _ := AddSink(T.Criteria("", rsid, {}, {}), sink);
    }
  }
}
