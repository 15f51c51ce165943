/**
 The lookup tables of call/rtp_demuxer.h and what each public operation does to them, as functions.
 Class `RtpDemuxer` performs these operations in place; module `RtpHistory` says what they are for.
 */
module RtpTables {
  import opened Common
  import opened DemuxerHelper

  // Sinks and SSRCs are only compared for equality.
  type Sink = nat
  type Ssrc = nat
  type PayloadType = p: nat | p < 256

  const MAX_SSRC_BINDINGS: nat := 1000

  /** "" stands for an absent MID or RSID. */
  datatype Criteria = Criteria(mid: string, rsid: string, ssrcs: set<Ssrc>, payloadTypes: set<PayloadType>)

  datatype Packet = Packet(ssrc: Ssrc, payloadType: PayloadType,
                           midExtension: Option<string>,
                           rsidExtension: Option<string>,
                           rridExtension: Option<string>)
  {
    /** RSID and RRID are routed alike; on a repair packet the RRID decides. */
    function Rsid(): Option<string> {
      if rridExtension.Some? then rridExtension else rsidExtension
    }
  }

  /** What a registered SsrcBindingObserver is told. */
  datatype Binding =
    | BoundToMid(mid: string, ssrc: Ssrc)
    | BoundToMidRsid(mid: string, rsid: string, ssrc: Ssrc)
    | BoundToRsid(rsid: string, ssrc: Ssrc)
    | BoundToPayloadType(payloadType: PayloadType, ssrc: Ssrc)

  datatype Tables = Tables(
    sinkByMid: map<string, Sink>,
    sinkBySsrc: map<Ssrc, Sink>,
    sinksByPt: seq<(PayloadType, Sink)>,
    sinkByMidRsid: map<(string, string), Sink>,
    sinkByRsid: map<string, Sink>,
    knownMids: set<string>,
    midBySsrc: map<Ssrc, string>,
    rsidBySsrc: map<Ssrc, string>,
    useMid: bool)

  const Initial := Tables(map[], map[], [], map[], map[], {}, map[], map[], true)

  function KnownMids(sinkByMid: map<string, Sink>, sinkByMidRsid: map<(string, string), Sink>): set<string> {
    sinkByMid.Keys + set key | key in sinkByMidRsid :: key.0
  }

  function RefreshKnownMids(t: Tables): Tables {
    t.(knownMids := KnownMids(t.sinkByMid, t.sinkByMidRsid))
  }

  predicate CriteriaWouldConflict(t: Tables, c: Criteria) {
    || (c.mid != "" && c.rsid == "" && c.mid in t.knownMids)
    || (c.mid == "" && c.rsid != "" && c.rsid in t.sinkByRsid)
    || (c.mid != "" && c.rsid != "" && (c.mid, c.rsid) in t.sinkByMidRsid)
    || exists ssrc :: ssrc in c.ssrcs && ssrc in t.sinkBySsrc
  }

  /** Adds one entry for each payload type below `n`, in ascending order. */
  function WithPayloadTypes(entries: seq<(PayloadType, Sink)>, pts: set<PayloadType>, sink: Sink, n: nat)
    : seq<(PayloadType, Sink)>
    requires n <= 256
  {
    if n == 0 then entries
    else
      WithPayloadTypes(entries, pts, sink, n - 1) + if n - 1 in pts then [(n - 1, sink)] else []
  }

  function Record(t: Tables, c: Criteria, sink: Sink): Tables {
    RefreshKnownMids(t.(
      sinkByMid := if c.mid != "" && c.rsid == "" then t.sinkByMid[c.mid := sink] else t.sinkByMid,
      sinkByMidRsid := if c.mid != "" && c.rsid != ""
      then t.sinkByMidRsid[(c.mid, c.rsid) := sink] else t.sinkByMidRsid,
      sinkByRsid := if c.mid == "" && c.rsid != "" then t.sinkByRsid[c.rsid := sink] else t.sinkByRsid,
      sinkBySsrc := t.sinkBySsrc + map ssrc | ssrc in c.ssrcs :: sink,
      sinksByPt := WithPayloadTypes(t.sinksByPt, c.payloadTypes, sink, 256)))
  }

  function AddSink(t: Tables, c: Criteria, sink: Sink): (Tables, bool) {
    if CriteriaWouldConflict(t, c) then (t, false) else (Record(t, c, sink), true)
  }

  predicate Holds(t: Tables, sink: Sink) {
    || MapHasValue(t.sinkByMid, sink)
    || MapHasValue(t.sinkBySsrc, sink)
    || MultimapHasValue(t.sinksByPt, sink)
    || MapHasValue(t.sinkByMidRsid, sink)
    || MapHasValue(t.sinkByRsid, sink)
  }

  function RemoveSink(t: Tables, sink: Sink): (Tables, bool) {
    (RefreshKnownMids(t.(
       sinkByMid := MapWithoutValue(t.sinkByMid, sink),
       sinkBySsrc := MapWithoutValue(t.sinkBySsrc, sink),
       sinksByPt := WithoutValue(t.sinksByPt, sink),
       sinkByMidRsid := MapWithoutValue(t.sinkByMidRsid, sink),
       sinkByRsid := MapWithoutValue(t.sinkByRsid, sink))),
     Holds(t, sink))
  }

  /** AddSsrcSinkBinding: at the limit nothing is recorded; the flag says whether the binding changed. */
  function Bind(t: Tables, ssrc: Ssrc, sink: Sink): (Tables, bool) {
    if |t.sinkBySsrc| >= MAX_SSRC_BINDINGS || Get(t.sinkBySsrc, ssrc) == Some(sink) then (t, false)
    else (t.(sinkBySsrc := t.sinkBySsrc[ssrc := sink]), true)
  }

  /** The packet's MID, if the demuxer looks at it. */
  function PacketMid(t: Tables, p: Packet): Option<string> {
    if t.useMid then p.midExtension else None
  }

  predicate UnknownMid(t: Tables, p: Packet) {
    PacketMid(t, p).Some? && PacketMid(t, p).value !in t.knownMids
  }

  /** Remembers the MID and the RSID that the packet carries for its SSRC. */
  function Learn(t: Tables, p: Packet): Tables {
    var mid, rsid := PacketMid(t, p), p.Rsid();
    t.(midBySsrc := if mid.Some? then t.midBySsrc[p.ssrc := mid.value] else t.midBySsrc,
       rsidBySsrc := if rsid.Some? then t.rsidBySsrc[p.ssrc := rsid.value] else t.rsidBySsrc)
  }

  /** The sink registered for exactly these ids. */
  function IdsSink(t: Tables, ids: (Option<string>, Option<string>)): Option<Sink> {
    match ids
    case (None, None) => None
    case (Some(mid), None) => Get(t.sinkByMid, mid)
    case (None, Some(rsid)) => Get(t.sinkByRsid, rsid)
    case (Some(mid), Some(rsid)) => Get(t.sinkByMidRsid, (mid, rsid))
  }

  /** The same, with what to announce. */
  function SinkOfIds(t: Tables, mid: Option<string>, rsid: Option<string>, ssrc: Ssrc): Option<(Sink, Binding)> {
    var sink := IdsSink(t, (mid, rsid));
    if sink.None? then None
    else if rsid.None? then Some((sink.value, BoundToMid(mid.value, ssrc)))
    else if mid.None? then Some((sink.value, BoundToRsid(rsid.value, ssrc)))
    else Some((sink.value, BoundToMidRsid(mid.value, rsid.value, ssrc)))
  }

  /**
   Rules 2 to 4, once the packet has been learned from. The ids that the packet carries are completed by
   those learned earlier; if nothing is registered for the completed ids, those it carries decide alone.
   */
  function SinkByIds(t: Tables, p: Packet): Option<(Sink, Binding)> {
    var mid, rsid := Get(t.midBySsrc, p.ssrc), Get(t.rsidBySsrc, p.ssrc);
    var completed := SinkOfIds(t, mid, rsid, p.ssrc);
    if completed.Some? then completed
    else if PacketMid(t, p).Some? && p.Rsid().None? then SinkOfIds(t, mid, None, p.ssrc)
    else if PacketMid(t, p).None? && p.Rsid().Some? then SinkOfIds(t, None, rsid, p.ssrc)
    else None
  }

  function BindAndForward(t: Tables, ssrc: Ssrc, target: (Sink, Binding)): (r: (Tables, Reply))
    ensures r.1.Routed?
  {
    var (t', changed) := Bind(t, ssrc, target.0);
    (t', Routed(Some(target.0), if changed then [target.1] else []))
  }

  /** Rules 5 to 7. */
  function ResolveNotByIds(t: Tables, p: Packet): (r: (Tables, Reply))
    ensures r.1.Routed?
  {
    if p.ssrc in t.sinkBySsrc then (t, Routed(Some(t.sinkBySsrc[p.ssrc]), []))
    else
      var sinks := EqualRange(t.sinksByPt, p.payloadType);
      if |sinks| == 1
      then BindAndForward(t, p.ssrc, (sinks[0], BoundToPayloadType(p.payloadType, p.ssrc)))
      else (t, Routed(None, []))
  }

  /** ResolveSink. */
  function Resolve(t: Tables, p: Packet): (r: (Tables, Reply))
    ensures r.1.Routed?
  {
    if UnknownMid(t, p) then (t, Routed(None, []))
    else
      var t := Learn(t, p);
      var byIds := SinkByIds(t, p);
      if byIds.Some? then BindAndForward(t, p.ssrc, byIds.value) else ResolveNotByIds(t, p)
  }

  datatype Operation =
    | AddSinkOp(criteria: Criteria, sink: Sink)
    | RemoveSinkOp(sink: Sink)
    | PacketOp(packet: Packet)
    | SetUseMidOp(useMid: bool)

  datatype Reply = Answered(ok: bool) | Routed(sink: Option<Sink>, announced: seq<Binding>) | Silent

  function Step(t: Tables, op: Operation): (Tables, Reply) {
    match op
    case AddSinkOp(c, s) => var (t', ok) := AddSink(t, c, s); (t', Answered(ok))
    case RemoveSinkOp(s) => var (t', ok) := RemoveSink(t, s); (t', Answered(ok))
    case PacketOp(p) => Resolve(t, p)
    case SetUseMidOp(b) => (t.(useMid := b), Silent)
  }

  function After(t: Tables, ops: seq<Operation>): Tables
    decreases |ops|
  {
    if ops == [] then t else After(Step(t, ops[0]).0, ops[1..])
  }

  function Replies(t: Tables, ops: seq<Operation>): seq<Reply>
    decreases |ops|
  {
    if ops == [] then [] else [Step(t, ops[0]).1] + Replies(Step(t, ops[0]).0, ops[1..])
  }

  lemma {:induction false} WithPayloadTypesRange(entries: seq<(PayloadType, Sink)>, pts: set<PayloadType>,
                                                 sink: Sink, n: nat, pt: PayloadType)
    requires n <= 256
    ensures EqualRange(WithPayloadTypes(entries, pts, sink, n), pt)
         == EqualRange(entries, pt) + if pt in pts && pt < n then [sink] else []
  {
    if n > 0 {
      WithPayloadTypesRange(entries, pts, sink, n - 1, pt);
      var before := WithPayloadTypes(entries, pts, sink, n - 1);
      if n - 1 in pts {
        assert (before + [(n - 1, sink)])[..|before|] == before;
      } else {
        assert before + [] == before;
      }
    }
  }
}
