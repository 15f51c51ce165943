/** The tables give every caller the same answers as the plain history, over every run. */
module RtpRefinement {
  import opened Common
  import opened DemuxerHelper
  import opened RtpTables
  import opened RtpHistory

  ghost predicate SsrcsAgree(t: Tables, h: History) {
    forall ssrc :: Get(t.sinkBySsrc, ssrc) == SinkOfSsrc(h, ssrc)
  }

  ghost predicate NamesAgree(t: Tables, h: History) {
    && (forall mid :: Get(t.sinkByMid, mid) == Named(h, mid, ""))
    && (forall rsid :: Get(t.sinkByRsid, rsid) == Named(h, "", rsid))
    && (forall mid, rsid :: Get(t.sinkByMidRsid, (mid, rsid)) == Paired(h, mid, rsid))
  }

  ghost predicate PayloadTypesAgree(t: Tables, h: History) {
    forall pt: PayloadType :: EqualRange(t.sinksByPt, pt) == SinksOfPayloadType(h, pt)
  }

  ghost predicate MemoryAgrees(t: Tables, h: History) {
    && (forall ssrc :: Get(t.midBySsrc, ssrc) == MidOfSsrc(h, ssrc))
    && (forall ssrc :: Get(t.rsidBySsrc, ssrc) == RsidOfSsrc(h, ssrc))
    && t.useMid == UseMid(h)
  }

  ghost predicate MidsFresh(t: Tables) {
    t.knownMids == KnownMids(t.sinkByMid, t.sinkByMidRsid)
  }

  /** Whenever a sink was added for some name, no live sink had that name. */
  ghost predicate NamesUnique(h: History) {
    h == [] || (
      && NamesUnique(Front(h))
      && (Last(h).Added? && (Last(h).criteria.mid != "" || Last(h).criteria.rsid != "") ==>
            SinkFor(Front(h), Last(h).criteria.mid, Last(h).criteria.rsid) == None))
  }

  ghost predicate Agrees(t: Tables, h: History) {
    && SsrcsAgree(t, h) && NamesAgree(t, h) && PayloadTypesAgree(t, h) && MemoryAgrees(t, h)
    && MidsFresh(t) && NamesUnique(h)
  }

  // ---- One more event ----

  lemma {:induction false} Snoc(h: History, e: Event)
    ensures Front(h + [e]) == h && Last(h + [e]) == e
  {
  }

  /** Removing a sink empties just the names it held. */
  lemma {:induction false} SinkForGone(h: History, mid: string, rsid: string, gone: set<Sink>, s: Sink)
    requires NamesUnique(h) && (mid != "" || rsid != "")
    ensures SinkFor(h, mid, rsid, gone + {s})
         == if SinkFor(h, mid, rsid, gone) == Some(s) then None else SinkFor(h, mid, rsid, gone)
    decreases |h|
  {
    if h != [] {
      var front := Front(h);
      SinkForGone(front, mid, rsid, Gone(h, gone), s);
      assert Gone(h, gone + {s}) == Gone(h, gone) + {s};
      if Last(h).Added? && Last(h).criteria.mid == mid && Last(h).criteria.rsid == rsid {
        SinkForNone(front, mid, rsid, {}, gone + {s});
      }
    }
  }

  lemma {:induction false} SinkForNone(h: History, mid: string, rsid: string, gone: set<Sink>, more: set<Sink>)
    requires gone <= more && SinkFor(h, mid, rsid, gone) == None
    ensures SinkFor(h, mid, rsid, more) == None
    decreases |h|
  {
    if h != [] {
      SinkForNone(Front(h), mid, rsid, Gone(h, gone), Gone(h, more));
    }
  }

  lemma {:induction false} SinkOfSsrcGone(h: History, ssrc: Ssrc, gone: set<Sink>, s: Sink)
    ensures SinkOfSsrc(h, ssrc, gone + {s})
         == if SinkOfSsrc(h, ssrc, gone) == Some(s) then None else SinkOfSsrc(h, ssrc, gone)
    decreases |h|
  {
    if h != [] {
      SinkOfSsrcGone(Front(h), ssrc, Gone(h, gone), s);
      assert Gone(h, gone + {s}) == Gone(h, gone) + {s};
    }
  }

  lemma {:induction false} SinksOfPayloadTypeGone(h: History, pt: PayloadType, gone: set<Sink>, s: Sink)
    ensures SinksOfPayloadType(h, pt, gone + {s}) == Without(SinksOfPayloadType(h, pt, gone), s)
    decreases |h|
  {
    if h != [] {
      var front := SinksOfPayloadType(Front(h), pt, Gone(h, gone));
      SinksOfPayloadTypeGone(Front(h), pt, Gone(h, gone), s);
      assert Gone(h, gone + {s}) == Gone(h, gone) + {s};
      if Last(h).Added? && pt in Last(h).criteria.payloadTypes && Last(h).sink !in gone {
        WithoutSnoc(front, Last(h).sink, s);
      } else {
        assert front + [] == front && Without(front, s) + [] == Without(front, s);
      }
    }
  }

  /** The number of recorded bindings is the size of the SSRC table. */
  lemma {:induction false} BoundSsrcsAgree(t: Tables, h: History)
    requires SsrcsAgree(t, h)
    ensures BoundSsrcs(h) == t.sinkBySsrc.Keys
  {
    forall ssrc ensures ssrc in BoundSsrcs(h) <==> ssrc in t.sinkBySsrc {
      assert Get(t.sinkBySsrc, ssrc) == SinkOfSsrc(h, ssrc);
      if SinkOfSsrc(h, ssrc).Some? {
        BoundAreMentioned(h, ssrc, {});
      }
    }
  }

  lemma {:induction false} BoundAreMentioned(h: History, ssrc: Ssrc, gone: set<Sink>)
    requires SinkOfSsrc(h, ssrc, gone).Some?
    ensures ssrc in SsrcsMentioned(h)
    decreases |h|
  {
    if !BindsSsrc(Last(h), ssrc) {
      BoundAreMentioned(Front(h), ssrc, Gone(h, gone));
    }
  }

  lemma {:induction false} KnownMidsAgree(t: Tables, h: History, mid: string)
    requires NamesAgree(t, h) && MidsFresh(t)
    ensures mid in t.knownMids <==> MidRegistered(h, mid)
  {
    assert Get(t.sinkByMid, mid) == Named(h, mid, "");
    if mid in t.knownMids && mid !in t.sinkByMid {
      var key :| key in t.sinkByMidRsid && key.0 == mid;
      assert Get(t.sinkByMidRsid, (mid, key.1)) == Paired(h, mid, key.1);
    }
    if MidRegistered(h, mid) && mid !in t.sinkByMid {
      var rsid :| SinkFor(h, mid, rsid).Some?;
      assert Get(t.sinkByMidRsid, (mid, rsid)) == Paired(h, mid, rsid);
      assert (mid, rsid) in t.sinkByMidRsid;
    }
  }

  // ---- One more operation ----

  lemma {:induction false} UnrelatedEvent(t: Tables, h: History, e: Event)
    requires e.Heard? || e.MidUsed? || e.Bound?
    ensures NamesAgree(t, h) ==> NamesAgree(t, h + [e])
    ensures PayloadTypesAgree(t, h) ==> PayloadTypesAgree(t, h + [e])
    ensures NamesUnique(h) ==> NamesUnique(h + [e])
    ensures !e.Bound? && SsrcsAgree(t, h) ==> SsrcsAgree(t, h + [e])
    ensures e.Bound? && MemoryAgrees(t, h) ==> MemoryAgrees(t, h + [e])
  {
  }

  lemma {:induction false} RejectsAgree(t: Tables, h: History, c: Criteria)
    requires Agrees(t, h)
    ensures CriteriaWouldConflict(t, c) <==> Rejects(h, c)
  {
    KnownMidsAgree(t, h, c.mid);
    assert Get(t.sinkByRsid, c.rsid) == Named(h, "", c.rsid);
    assert Get(t.sinkByMidRsid, (c.mid, c.rsid)) == Paired(h, c.mid, c.rsid);
    assert forall ssrc :: Get(t.sinkBySsrc, ssrc) == SinkOfSsrc(h, ssrc);
  }

  lemma {:induction false} AddAgrees(t: Tables, h: History, c: Criteria, s: Sink)
    requires Agrees(t, h) && !Rejects(h, c)
    ensures Agrees(Record(t, c, s), h + [Added(c, s)])
  {
    var t', e := Record(t, c, s), Added(c, s);
    var h' := h + [e];
    Snoc(h, e);
    forall ssrc ensures Get(t'.sinkBySsrc, ssrc) == SinkOfSsrc(h', ssrc) {
      assert Get(t.sinkBySsrc, ssrc) == SinkOfSsrc(h, ssrc);
    }
    forall mid, rsid
      ensures SinkFor(h', mid, rsid) == if (mid, rsid) == (c.mid, c.rsid) then Some(s) else SinkFor(h, mid, rsid)
    {
    }
    forall pt: PayloadType ensures EqualRange(t'.sinksByPt, pt) == SinksOfPayloadType(h', pt) {
      WithPayloadTypesRange(t.sinksByPt, c.payloadTypes, s, 256, pt);
    }
    assert MemoryAgrees(t', h');
    assert NamesUnique(h') by {
      if c.mid != "" && c.rsid == "" {
        assert !MidRegistered(h, c.mid);
      }
    }
    assert NamesAgree(t', h') by {
      forall mid ensures Get(t'.sinkByMid, mid) == Named(h', mid, "") {
        assert Get(t.sinkByMid, mid) == Named(h, mid, "");
      }
      forall rsid ensures Get(t'.sinkByRsid, rsid) == Named(h', "", rsid) {
        assert Get(t.sinkByRsid, rsid) == Named(h, "", rsid);
      }
      forall mid, rsid ensures Get(t'.sinkByMidRsid, (mid, rsid)) == Paired(h', mid, rsid) {
        assert Get(t.sinkByMidRsid, (mid, rsid)) == Paired(h, mid, rsid);
      }
    }
  }

  lemma {:induction false} RemoveAgrees(t: Tables, h: History, s: Sink)
    requires Agrees(t, h)
    ensures Agrees(RemoveSink(t, s).0, h + [Removed(s)])
  {
    var t', e := RemoveSink(t, s).0, Removed(s);
    var h' := h + [e];
    Snoc(h, e);
    assert Gone(h', {}) == {} + {s};
    forall ssrc ensures Get(t'.sinkBySsrc, ssrc) == SinkOfSsrc(h', ssrc) {
      assert Get(t.sinkBySsrc, ssrc) == SinkOfSsrc(h, ssrc);
      SinkOfSsrcGone(h, ssrc, {}, s);
    }
    forall pt: PayloadType ensures EqualRange(t'.sinksByPt, pt) == SinksOfPayloadType(h', pt) {
      EqualRangeWithoutValue(t.sinksByPt, pt, s);
      SinksOfPayloadTypeGone(h, pt, {}, s);
    }
    forall mid, rsid | mid != "" || rsid != ""
      ensures SinkFor(h', mid, rsid) == if SinkFor(h, mid, rsid) == Some(s) then None else SinkFor(h, mid, rsid)
    {
      SinkForGone(h, mid, rsid, {}, s);
    }
    assert NamesAgree(t', h') by {
      forall mid ensures Get(t'.sinkByMid, mid) == Named(h', mid, "") {
        assert Get(t.sinkByMid, mid) == Named(h, mid, "");
      }
      forall rsid ensures Get(t'.sinkByRsid, rsid) == Named(h', "", rsid) {
        assert Get(t.sinkByRsid, rsid) == Named(h, "", rsid);
      }
      forall mid, rsid ensures Get(t'.sinkByMidRsid, (mid, rsid)) == Paired(h', mid, rsid) {
        assert Get(t.sinkByMidRsid, (mid, rsid)) == Paired(h, mid, rsid);
      }
    }
    assert MemoryAgrees(t', h');
  }

  lemma {:induction false} HoldsAgrees(t: Tables, h: History, s: Sink)
    requires Agrees(t, h)
    ensures Holds(t, s) <==> Registered(h, s)
  {
    forall mid ensures mid in t.sinkByMid && t.sinkByMid[mid] == s <==> Named(h, mid, "") == Some(s) {
      assert Get(t.sinkByMid, mid) == Named(h, mid, "");
    }
    forall rsid ensures rsid in t.sinkByRsid && t.sinkByRsid[rsid] == s <==> Named(h, "", rsid) == Some(s) {
      assert Get(t.sinkByRsid, rsid) == Named(h, "", rsid);
    }
    forall mid, rsid ensures (mid, rsid) in t.sinkByMidRsid && t.sinkByMidRsid[(mid, rsid)] == s
                        <==> Paired(h, mid, rsid) == Some(s) {
      assert Get(t.sinkByMidRsid, (mid, rsid)) == Paired(h, mid, rsid);
    }
    forall ssrc ensures ssrc in t.sinkBySsrc && t.sinkBySsrc[ssrc] == s <==> SinkOfSsrc(h, ssrc) == Some(s) {
      assert Get(t.sinkBySsrc, ssrc) == SinkOfSsrc(h, ssrc);
    }
    forall pt: PayloadType ensures (pt, s) in t.sinksByPt <==> s in SinksOfPayloadType(h, pt) {
      InEqualRange(t.sinksByPt, pt, s);
    }
    if Holds(t, s) {
      if MapHasValue(t.sinkByMid, s) {
        var mid :| mid in t.sinkByMid && t.sinkByMid[mid] == s;
        assert Named(h, mid, "") == Some(s);
      } else if MapHasValue(t.sinkByRsid, s) {
        var rsid :| rsid in t.sinkByRsid && t.sinkByRsid[rsid] == s;
        assert Named(h, "", rsid) == Some(s);
      } else if MapHasValue(t.sinkByMidRsid, s) {
        var key :| key in t.sinkByMidRsid && t.sinkByMidRsid[key] == s;
        assert (key.0, key.1) == key && Paired(h, key.0, key.1) == Some(s);
      } else if MultimapHasValue(t.sinksByPt, s) {
        var i :| 0 <= i < |t.sinksByPt| && t.sinksByPt[i].1 == s;
        assert (t.sinksByPt[i].0, s) in t.sinksByPt;
      }
    }
    if Registered(h, s) {
      if mid, rsid :| (mid != "" || rsid != "") && SinkFor(h, mid, rsid) == Some(s) {
        assert rsid == "" ==> Named(h, mid, "") == Some(s);
        assert mid == "" ==> Named(h, "", rsid) == Some(s);
        assert rsid != "" && mid != "" ==> (mid, rsid) in t.sinkByMidRsid;
      } else if pt: PayloadType :| s in SinksOfPayloadType(h, pt) {
        assert (pt, s) in t.sinksByPt;
      }
    }
  }

  lemma {:induction false} LearnAgrees(t: Tables, h: History, p: Packet)
    requires Agrees(t, h)
    ensures Agrees(Learn(t, p), h + [Heard(p.ssrc, PacketMid(t, p), p.Rsid())])
  {
    var t', e := Learn(t, p), Heard(p.ssrc, PacketMid(t, p), p.Rsid());
    Snoc(h, e);
    UnrelatedEvent(t, h, e);
    forall ssrc ensures Get(t'.midBySsrc, ssrc) == MidOfSsrc(h + [e], ssrc) {
      assert Get(t.midBySsrc, ssrc) == MidOfSsrc(h, ssrc);
    }
    forall ssrc ensures Get(t'.rsidBySsrc, ssrc) == RsidOfSsrc(h + [e], ssrc) {
      assert Get(t.rsidBySsrc, ssrc) == RsidOfSsrc(h, ssrc);
    }
  }

  lemma {:induction false} BoundAgrees(t: Tables, h: History, ssrc: Ssrc, sink: Sink)
    requires Agrees(t, h)
    ensures Agrees(t.(sinkBySsrc := t.sinkBySsrc[ssrc := sink]), h + [Bound(ssrc, sink)])
  {
    var t', e := t.(sinkBySsrc := t.sinkBySsrc[ssrc := sink]), Bound(ssrc, sink);
    Snoc(h, e);
    UnrelatedEvent(t, h, e);
    forall x ensures Get(t'.sinkBySsrc, x) == SinkOfSsrc(h + [e], x) {
      assert Get(t.sinkBySsrc, x) == SinkOfSsrc(h, x);
    }
  }

  lemma {:induction false} ForwardAgrees(t: Tables, h: History, ssrc: Ssrc, target: (Sink, Binding))
    requires Agrees(t, h)
    ensures Agrees(BindAndForward(t, ssrc, target).0, Forward(h, ssrc, target.0, target.1).0)
    ensures BindAndForward(t, ssrc, target).1 == Forward(h, ssrc, target.0, target.1).1
  {
    BoundSsrcsAgree(t, h);
    assert Get(t.sinkBySsrc, ssrc) == SinkOfSsrc(h, ssrc);
    assert |BoundSsrcs(h)| == |t.sinkBySsrc|;
    if Bind(t, ssrc, target.0).1 {
      BoundAgrees(t, h, ssrc, target.0);
    }
  }

  /** Rules 5 to 7. */
  lemma {:induction false} NotByIdsAgrees(t: Tables, h: History, p: Packet)
    requires Agrees(t, h)
    ensures ResolveNotByIds(t, p).1 == ReceiveNotByIds(h, p).1
    ensures Agrees(ResolveNotByIds(t, p).0, ReceiveNotByIds(h, p).0)
  {
    assert Get(t.sinkBySsrc, p.ssrc) == SinkOfSsrc(h, p.ssrc);
    var sinks := EqualRange(t.sinksByPt, p.payloadType);
    assert sinks == SinksOfPayloadType(h, p.payloadType);
    if p.ssrc !in t.sinkBySsrc && |sinks| == 1 {
      ForwardAgrees(t, h, p.ssrc, (sinks[0], BoundToPayloadType(p.payloadType, p.ssrc)));
    }
  }

  lemma {:induction false} ReceiveAgrees(t: Tables, h: History, p: Packet)
    requires Agrees(t, h)
    ensures Agrees(Resolve(t, p).0, Receive(h, p).0)
    ensures Resolve(t, p).1 == Receive(h, p).1
  {
    var carried := PacketMid(t, p);
    if carried.Some? {
      KnownMidsAgree(t, h, carried.value);
    }
    if !UnknownMid(t, p) {
      var t1, h1 := Learn(t, p), h + [Heard(p.ssrc, carried, p.Rsid())];
      LearnAgrees(t, h, p);
      IdsAgree(t1, h1, p);
      var byIds := SinkByIds(t1, p);
      if byIds.Some? {
        ForwardAgrees(t1, h1, p.ssrc, byIds.value);
      } else {
        NotByIdsAgrees(t1, h1, p);
      }
    }
  }

  /** Rules 2 to 4 on the tables pick the sink the history names. */
  lemma {:induction false} IdsAgree(t: Tables, h: History, p: Packet)
    requires Agrees(t, h)
    requires PacketMid(t, p).Some? ==> p.ssrc in t.midBySsrc
    requires p.Rsid().Some? ==> p.ssrc in t.rsidBySsrc
    ensures SinkByIds(t, p) == SinkNamed(h, p.ssrc, PacketMid(t, p), p.Rsid())
  {
    var mid, rsid := MidOfSsrc(h, p.ssrc), RsidOfSsrc(h, p.ssrc);
    assert Get(t.midBySsrc, p.ssrc) == mid && Get(t.rsidBySsrc, p.ssrc) == rsid;
    if mid.Some? {
      assert Get(t.sinkByMid, mid.value) == Named(h, mid.value, "");
    }
    if rsid.Some? {
      assert Get(t.sinkByRsid, rsid.value) == Named(h, "", rsid.value);
    }
    if mid.Some? && rsid.Some? {
      assert Get(t.sinkByMidRsid, (mid.value, rsid.value)) == Paired(h, mid.value, rsid.value);
    }
  }

  lemma {:induction false} AddStepAgrees(t: Tables, h: History, c: Criteria, s: Sink)
    requires Agrees(t, h)
    ensures Agrees(Step(t, AddSinkOp(c, s)).0, HistoryStep(h, AddSinkOp(c, s)).0)
    ensures Step(t, AddSinkOp(c, s)).1 == HistoryStep(h, AddSinkOp(c, s)).1
  {
    RejectsAgree(t, h, c);
    if !Rejects(h, c) {
      AddAgrees(t, h, c, s);
    }
  }

  lemma {:induction false} RemoveStepAgrees(t: Tables, h: History, s: Sink)
    requires Agrees(t, h)
    ensures Agrees(Step(t, RemoveSinkOp(s)).0, HistoryStep(h, RemoveSinkOp(s)).0)
    ensures Step(t, RemoveSinkOp(s)).1 == HistoryStep(h, RemoveSinkOp(s)).1
  {
    RemoveAgrees(t, h, s);
    HoldsAgrees(t, h, s);
  }

  lemma {:induction false} UseMidStepAgrees(t: Tables, h: History, b: bool)
    requires Agrees(t, h)
    ensures Agrees(Step(t, SetUseMidOp(b)).0, HistoryStep(h, SetUseMidOp(b)).0)
    ensures Step(t, SetUseMidOp(b)).1 == HistoryStep(h, SetUseMidOp(b)).1
  {
    Snoc(h, MidUsed(b));
    UnrelatedEvent(t, h, MidUsed(b));
  }

  lemma {:induction false} StepAgrees(t: Tables, h: History, op: Operation)
    requires Agrees(t, h)
    ensures Agrees(Step(t, op).0, HistoryStep(h, op).0)
    ensures Step(t, op).1 == HistoryStep(h, op).1
  {
    match op {
      case AddSinkOp(c, s) => AddStepAgrees(t, h, c, s);
      case RemoveSinkOp(s) => RemoveStepAgrees(t, h, s);
      case PacketOp(p) => ReceiveAgrees(t, h, p);
      case SetUseMidOp(b) => UseMidStepAgrees(t, h, b);
    }
  }

  lemma {:induction false} RunAgrees(t: Tables, h: History, ops: seq<Operation>)
    requires Agrees(t, h)
    ensures Replies(t, ops) == HistoryReplies(h, ops)
    decreases |ops|
  {
    if ops != [] {
      StepAgrees(t, h, ops[0]);
      RunAgrees(Step(t, ops[0]).0, HistoryStep(h, ops[0]).0, ops[1..]);
    }
  }

  /** Whatever is called, in whatever order, the tables answer as the seven rules read off the history. */
  lemma {:induction false} TablesRefineHistory(ops: seq<Operation>)
    ensures Replies(Initial, ops) == HistoryReplies([], ops)
  {
    RunAgrees(Initial, [], ops);
  }
}
