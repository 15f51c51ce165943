/**
 What the RTP demuxer is for, said without any table: the routing rules of call/rtp_demuxer.h read off
 the plain list of everything that has happened, most recent event first.
 */
module RtpHistory {
  import opened Common
  import opened RtpTables

  datatype Event =
    | Added(criteria: Criteria, sink: Sink)
    | Removed(sink: Sink)
    | Heard(ssrc: Ssrc, mid: Option<string>, rsid: Option<string>)
    | Bound(ssrc: Ssrc, sink: Sink)
    | MidUsed(useMid: bool)

  type History = seq<Event>

  function Last(h: History): Event
    requires h != []
  {
    h[|h| - 1]
  }

  function Front(h: History): History
    requires h != []
  {
    h[..|h| - 1]
  }

  /** Sinks removed later than the events of `h` are `gone`. */
  function Gone(h: History, gone: set<Sink>): set<Sink>
    requires h != []
  {
    if Last(h).Removed? then gone + {Last(h).sink} else gone
  }

  /** A sink that was added for exactly this MID and RSID and has not been removed since. */
  function SinkFor(h: History, mid: string, rsid: string, gone: set<Sink> := {}): Option<Sink> {
    if h == [] then None
    else if Last(h).Added? && Last(h).criteria.mid == mid && Last(h).criteria.rsid == rsid && Last(h).sink !in gone
    then Some(Last(h).sink)
    else SinkFor(Front(h), mid, rsid, Gone(h, gone))
  }

  ghost predicate MidRegistered(h: History, mid: string) {
    mid != "" && exists rsid :: SinkFor(h, mid, rsid).Some?
  }

  predicate BindsSsrc(e: Event, ssrc: Ssrc) {
    (e.Bound? && e.ssrc == ssrc) || (e.Added? && ssrc in e.criteria.ssrcs)
  }

  /** The sink of the latest event that bound the SSRC, unless that sink has been removed since. */
  function SinkOfSsrc(h: History, ssrc: Ssrc, gone: set<Sink> := {}): Option<Sink> {
    if h == [] then None
    else if BindsSsrc(Last(h), ssrc) then if Last(h).sink in gone then None else Some(Last(h).sink)
    else SinkOfSsrc(Front(h), ssrc, Gone(h, gone))
  }

  /** All sinks added for the payload type and not removed since, one entry per registration. */
  function SinksOfPayloadType(h: History, pt: PayloadType, gone: set<Sink> := {}): seq<Sink> {
    if h == [] then []
    else
      SinksOfPayloadType(Front(h), pt, Gone(h, gone))
      + if Last(h).Added? && pt in Last(h).criteria.payloadTypes && Last(h).sink !in gone then [Last(h).sink] else []
  }

  /** The MID most recently heard from the SSRC. */
  function MidOfSsrc(h: History, ssrc: Ssrc): Option<string> {
    if h == [] then None
    else if Last(h).Heard? && Last(h).ssrc == ssrc && Last(h).mid.Some? then Last(h).mid
    else MidOfSsrc(Front(h), ssrc)
  }

  function RsidOfSsrc(h: History, ssrc: Ssrc): Option<string> {
    if h == [] then None
    else if Last(h).Heard? && Last(h).ssrc == ssrc && Last(h).rsid.Some? then Last(h).rsid
    else RsidOfSsrc(Front(h), ssrc)
  }

  function UseMid(h: History): bool {
    if h == [] then true
    else if Last(h).MidUsed? then Last(h).useMid
    else UseMid(Front(h))
  }

  function SsrcsMentioned(h: History): set<Ssrc> {
    if h == [] then {}
    else
      SsrcsMentioned(Front(h))
      + if Last(h).Bound? then {Last(h).ssrc} else if Last(h).Added? then Last(h).criteria.ssrcs else {}
  }

  /** The SSRCs that are bound to some sink. */
  function BoundSsrcs(h: History): set<Ssrc> {
    set ssrc | ssrc in SsrcsMentioned(h) && SinkOfSsrc(h, ssrc).Some?
  }

  /** The four documented reasons to reject a sink. */
  ghost predicate Rejects(h: History, c: Criteria) {
    || (c.mid != "" && c.rsid == "" && MidRegistered(h, c.mid))
    || (c.rsid != "" && SinkFor(h, c.mid, c.rsid).Some?)
    || exists ssrc :: ssrc in c.ssrcs && SinkOfSsrc(h, ssrc).Some?
  }

  ghost predicate Registered(h: History, sink: Sink) {
    || (exists mid, rsid :: (mid != "" || rsid != "") && SinkFor(h, mid, rsid) == Some(sink))
    || (exists ssrc :: SinkOfSsrc(h, ssrc) == Some(sink))
    || (exists pt: PayloadType :: sink in SinksOfPayloadType(h, pt))
  }

  /** Records the binding of the SSRC unless it is recorded already or there are too many. */
  function Forward(h: History, ssrc: Ssrc, sink: Sink, binding: Binding): (History, Reply) {
    if |BoundSsrcs(h)| < MAX_SSRC_BINDINGS && SinkOfSsrc(h, ssrc) != Some(sink)
    then (h + [Bound(ssrc, sink)], Routed(Some(sink), [binding]))
    else (h, Routed(Some(sink), []))
  }

  /** An empty string names nothing. */
  function Named(h: History, mid: string, rsid: string): Option<Sink> {
    if mid == "" && rsid == "" then None else SinkFor(h, mid, rsid)
  }

  function Paired(h: History, mid: string, rsid: string): Option<Sink> {
    if mid == "" || rsid == "" then None else SinkFor(h, mid, rsid)
  }

  /**
   Rules 2 to 4 for a packet that carries the given ids and has been heard: the sink, and what to announce.
   An id that the packet does not carry is the one last heard from its SSRC.
   */
  function SinkNamed(h: History, ssrc: Ssrc, carriedMid: Option<string>, carriedRsid: Option<string>)
    : Option<(Sink, Binding)>
  {
    var mid, rsid := MidOfSsrc(h, ssrc), RsidOfSsrc(h, ssrc);
    if mid.Some? && rsid.Some? && Paired(h, mid.value, rsid.value).Some? then                // rule 3
      Some((Paired(h, mid.value, rsid.value).value, BoundToMidRsid(mid.value, rsid.value, ssrc)))
    else if mid.Some? && carriedRsid.None? && (carriedMid.Some? || rsid.None?)
            && Named(h, mid.value, "").Some? then                                            // rule 2
      Some((Named(h, mid.value, "").value, BoundToMid(mid.value, ssrc)))
    else if rsid.Some? && carriedMid.None? && (carriedRsid.Some? || mid.None?)
            && Named(h, "", rsid.value).Some? then                                           // rule 4
      Some((Named(h, "", rsid.value).value, BoundToRsid(rsid.value, ssrc)))
    else None
  }

  ghost function ReceiveNotByIds(h: History, p: Packet): (History, Reply) {
    if SinkOfSsrc(h, p.ssrc).Some? then                                                      // rule 5
      (h, Routed(SinkOfSsrc(h, p.ssrc), []))
    else if |SinksOfPayloadType(h, p.payloadType)| == 1 then                                 // rule 6
      Forward(h, p.ssrc, SinksOfPayloadType(h, p.payloadType)[0], BoundToPayloadType(p.payloadType, p.ssrc))
    else (h, Routed(None, []))                                                               // rule 7
  }

  /** The seven rules, in order. */
  ghost function Receive(h: History, p: Packet): (History, Reply) {
    var carried := if UseMid(h) then p.midExtension else None;
    if carried.Some? && !MidRegistered(h, carried.value) then (h, Routed(None, []))          // rule 1
    else
      var h := h + [Heard(p.ssrc, carried, p.Rsid())];
      var named := SinkNamed(h, p.ssrc, carried, p.Rsid());
      if named.Some? then Forward(h, p.ssrc, named.value.0, named.value.1)                   // rules 2 to 4
      else ReceiveNotByIds(h, p)                                                             // rules 5 to 7
  }

  ghost function HistoryStep(h: History, op: Operation): (History, Reply) {
    match op
    case AddSinkOp(c, s) => if Rejects(h, c) then (h, Answered(false)) else (h + [Added(c, s)], Answered(true))
    case RemoveSinkOp(s) => (h + [Removed(s)], Answered(Registered(h, s)))
    case PacketOp(p) => Receive(h, p)
    case SetUseMidOp(b) => (h + [MidUsed(b)], Silent)
  }

  ghost function HistoryReplies(h: History, ops: seq<Operation>): seq<Reply>
    decreases |ops|
  {
    if ops == [] then [] else [HistoryStep(h, ops[0]).1] + HistoryReplies(HistoryStep(h, ops[0]).0, ops[1..])
  }
}
