# Verified models of the WebRTC core used by this repository

The application in `src/` is a thin layer over WebRTC. This project models, in Dafny 4.11, the parts of the
vendored WebRTC headers that have real state and rules, and proves what they promise over whole runs:

- **RTP demuxing** (`call/rtp_demuxer.h`, `call/rtp_rtcp_demuxer_helper.h`, `call/rtcp_demuxer.h`).
  `RtpTables` is the demuxer's tables and what each call does to them; class `RtpDemuxer` does it in place.
  `RtpHistory` states the seven routing rules with no table at all, by scanning the plain list of past events.
  `RtpRefinement` proves that the two give every caller the same answers in every run; `RtpRules` states each
  numbered rule on the extensions a packet carries; `RtpRouting` and `RtcpDemuxing` prove removal, latching,
  limits, and who gets an RTCP packet.
- **Reference counting** (`api/scoped_refptr.h`, `api/ref_counted_base.h`, `api/rtp_packet_infos.h`).
  `RefModel` is an explicit memory in which touching a deleted object faults; classes `RefCountedBase` and
  `ScopedRefptr` perform the same operations on the heap.
- **SCTP data channels** (`pc/data_channel.h`): the two-party closing procedure over a stream id that is used
  again and again, the channel's queue, and the id allocator.
- **Offer/answer** (`api/peer_connection_interface.h`): two peers, colliding offers, rollback.
- **Absolute send time** (`api/rtp_headers.h`), **observers** (`api/notifier.h`, `pc/media_stream_track.h`) and
  **array views** (`api/array_view.h`).

`dafny verify dfyconfig.toml` checks everything. Automatic induction is off; every induction is written out.

## Reading of the sources

Some headers declare an algorithm in comments only; their bodies are not part of this model. Where a comment
leaves a choice, the model takes this one:

- A MID counts as registered, both for rule 1 and for rejecting a MID-only sink, if any registered criteria names it.
- Rules 2 to 4: the MID and RSID that the packet carries are completed by those last heard from its SSRC (the
  criteria comment speaks of "SSRC latching", and the learned maps are kept for that). If no sink is registered for
  the completed ids, a MID carried without an RSID, or an RSID carried without a MID, decides alone. Rule 1 looks at
  the carried MID only. An RRID takes precedence over an RSID in the same packet.
- "Exactly one payload type sink" means one entry in the multimap.
- When the SSRC table is full, a packet changes no binding in it. AddSink is not limited.
- An observer is told of a binding when AddSsrcSinkBinding reports a change.
- A closing channel, whoever started, sends its queued data before its reset; reset acknowledgements travel in
  order with the data of their direction; data or a reset on a free stream id opens the channel there.
- The number of stream ids is a parameter of the allocator.
- An offer is set and sent in two steps, an answer is set and sent in one; a description that
  SetRemoteDescription refuses is dropped. In have-local-offer another offer may be set, sent or not; a rollback is
  possible in every state but stable.

Three promises do not hold as written, and the project says exactly when they do:

- An RTCP sink registered for an RSID is promised the packets of the SSRC the RSID resolves to. It gets them exactly
  if it is registered by the time the RTP demuxer announces the binding (`ReachedExactly`, and over whole runs
  `SessionRecipientsExactly`), and that happens exactly if the RSID alone decides, the SSRC table has room, and the
  SSRC is not yet bound to the sink in question (`AnnouncesExactly`). So it is missed when it is registered later
  (`LateRsidSinkIsMissed`), when the SSRC is already bound or the table full (`MissedWhenBoundOrFull`), and when the
  RSID is resolved together with a MID, since the RTCP demuxer handles no such announcement (`MissedWithMid`).
- Rules 2 to 4 promise later packets of the SSRC to the same sink. That holds if the sink is the one registered for
  all ids known of the SSRC (`LatchedByIds`), and otherwise if the binding is recorded (`LatchedByCarriedId`). If the
  SSRC table is full and does not hold that binding already, it is not recorded, and the packet is forgotten
  (`UnrecordedIsForgotten`, `LatchLostWhenFull`).
- Two quiescent peers hold the same descriptions in every run exactly if not both have `enable_implicit_rollback` set
  and an offer already sent is neither rolled back nor replaced (`AgreementExactly`; `BothRollingBackDisagree`,
  `RollbackOfSentOfferDisagrees` and `ReplacedOfferDisagrees` are the runs that fail).

## Model

| member | source | states |
|---|---|---|
| `DemuxerHelper.RemoveFromMultimapByValue` | local/include/call/rtp_rtcp_demuxer_helper.h:33-45 | the erase loop leaves exactly the entries with other values, in order; the count and the remaining size add up to the original size; afterwards the value is gone |
| `DemuxerHelper.RemoveFromMapByValue` | local/include/call/rtp_rtcp_demuxer_helper.h:47-59 | the same for a map |
| `DemuxerHelper.WithoutValueAppend` | local/include/call/rtp_rtcp_demuxer_helper.h:33-45 | erasing works on each part of the container alone, so survivors keep their order |
| `DemuxerHelper.EqualRangeWithoutValue` | local/include/call/rtp_rtcp_demuxer_helper.h:33-45 | erasing a value removes it from each key's range and nothing else from that range |
| `DemuxerHelper.InEqualRange` | local/include/call/rtp_rtcp_demuxer_helper.h:22-31 | a key's range holds exactly the values associated with the key |
| `DemuxerHelper.WithoutValueHas` | local/include/call/rtp_rtcp_demuxer_helper.h:66-74 | after erasing, the has-value predicate is false for the erased value and unchanged for every other |
| `RtpRefinement.TablesRefineHistory` | local/include/call/rtp_demuxer.h:56-83 | for every sequence of calls and packets, every return value, routing and announcement computed from the tables equals the one the seven rules give on the plain history |
| `RtpRefinement.StepAgrees` | local/include/call/rtp_demuxer.h:174-198 | every operation keeps all tables, the MID cache and the learned memories in agreement with the history |
| `RtpRefinement.RejectsAgree` | local/include/call/rtp_demuxer.h:101-112 | AddSink is rejected in exactly the four documented situations |
| `RtpRefinement.HoldsAgrees` | local/include/call/rtp_demuxer.h:125-127 | RemoveSink reports true exactly when some registration or binding of the sink was still in force |
| `RtpRefinement.ReceiveAgrees` | local/include/call/rtp_demuxer.h:153-168 | resolving one packet on the tables is applying rules 1 to 7 to the history |
| `RtpRefinement.SinkForGone` | local/include/call/rtp_demuxer.h:125-127 | removing a sink frees just the names it held |
| `RtpRules.Rule1` | local/include/call/rtp_demuxer.h:58-59 | after any calls, a packet with a MID that no registered sink names is not routed and changes nothing |
| `RtpRules.Rule2` | local/include/call/rtp_demuxer.h:60-64 | after any calls, a packet with a bound MID and no RSID or RRID goes to the MID's sink, unless a sink is registered for the MID and the RSID heard earlier from the SSRC; its SSRC is bound unless the table is full, and the binding by that MID or pair is announced exactly if it is a change |
| `RtpRules.Rule3` | local/include/call/rtp_demuxer.h:65-68 | the same for a carried MID and a bound pair of it with the packet's RRID or, if it carries none, its RSID |
| `RtpRules.Rule4` | local/include/call/rtp_demuxer.h:69-72 | the same for a bound RRID or, if the packet carries none, RSID without a carried MID |
| `RtpRules.Rule5` | local/include/call/rtp_demuxer.h:73-76 | if none of these ids, carried or completed by those heard earlier, has a sink, a bound SSRC decides, whatever the payload type, and no binding changes |
| `RtpRules.Rule6` | local/include/call/rtp_demuxer.h:77-78 | if the SSRC is unbound too, a payload type with exactly one registration decides; the SSRC is bound unless the table is full, and that is announced |
| `RtpRules.Rule7` | local/include/call/rtp_demuxer.h:79 | otherwise the packet is not routed |
| `RtpRules.UseMidIsLastSet` | local/include/call/rtp_demuxer.h:144-146 | over every run MIDs are looked at exactly if the last call of set_use_mid said so, or there was none |
| `RtpRouting.RemovedSinkGetsNothing` | local/include/call/rtp_demuxer.h:125-131 | after RemoveSink no packet reaches the sink in any continuation that does not add it again |
| `RtpRouting.LearnedIdsOutliveSinks` | local/include/call/rtp_demuxer.h:193-198 | a MID and RSID heard from an SSRC are still remembered after any removal and replacement of sinks, and later packets go to whatever sink is by then registered for exactly those ids |
| `RtpRouting.LatchedByIds` | local/include/call/rtp_demuxer.h:60-72 | once routed by all ids known of the SSRC, all its later packets reach the same sink until a sink changes or the SSRC names another MID or RSID, even with a full SSRC table |
| `RtpRouting.LatchedByCarriedId` | local/include/call/rtp_demuxer.h:60-72 | once routed by the one id carried although another is known, later packets that carry that id or none reach the same sink until a sink changes, if the binding was recorded |
| `RtpRouting.UnrecordedIsForgotten` | local/include/call/rtp_demuxer.h:60-72 | if it was not recorded, the next packet without ids is routed by the SSRC table and payload types as they were before |
| `RtpRouting.LatchLostWhenFull` | local/include/call/rtp_demuxer.h:60-64 | with a full SSRC table and a stray RSID, a packet with a MID reaches the MID's sink and the next one without it reaches none |
| `RtpRouting.PayloadTypeBinds` | local/include/call/rtp_demuxer.h:77-89 | a packet routed by payload type reaches the one sink registered for it and binds its SSRC exactly when the SSRC table is not full |
| `RtpRouting.LatchedByPayloadType` | local/include/call/rtp_demuxer.h:77-89 | then the SSRC's later packets without ids reach that sink whatever payload type they carry, until a sink changes, even if the first packet carried, or the SSRC is known by, ids nobody registered |
| `RtpRouting.PacketsRespectLimit` | local/include/call/rtp_demuxer.h:86-89 | without AddSink, no sequence of calls grows the SSRC table past the limit |
| `RtpRouting.OneSinkPerName` | local/include/call/rtp_demuxer.h:101-112 | in every run no two registered sinks were added for the same MID, RSID or pair |
| `RtpRouting.TablesHoldOnlyRegistered` | local/include/call/rtp_demuxer.h:125-127 | in every run a sink found in any table, learned bindings included, was added and has not been removed since |
| `RtpRouting.KnownMidsAlwaysFresh` | local/include/call/rtp_demuxer.h:170-191 | in every run the MID cache is what regenerating it would give |
| `RtpDemuxing.RtpDemuxer.constructor` | local/include/call/rtp_demuxer.h:84-96 | starts with empty tables and MIDs in use |
| `RtpDemuxing.RtpDemuxer.SetUseMid` | local/include/call/rtp_demuxer.h:144-146 | changes only whether MIDs are looked at |
| `RtpDemuxing.RtpDemuxer.CriteriaWouldConflict` | local/include/call/rtp_demuxer.h:149-151 | decides the conflict with the present tables |
| `RtpDemuxing.RtpDemuxer.AddSink` | local/include/call/rtp_demuxer.h:101-112 | performs the table operation that is proved to follow the history; on false nothing changes |
| `RtpDemuxing.RtpDemuxer.AddSinkForSsrc` | local/include/call/rtp_demuxer.h:114-119 | succeeds exactly when the SSRC is unbound; a bound SSRC keeps its sink |
| `RtpDemuxing.RtpDemuxer.AddSinkForRsid` | local/include/call/rtp_demuxer.h:121-123 | registers the sink for the RSID alone |
| `RtpDemuxing.RtpDemuxer.RemoveSink` | local/include/call/rtp_demuxer.h:125-127 | erases the sink from all five tables by the erase loops and refreshes the MID cache |
| `RtpDemuxing.RtpDemuxer.RefreshKnownMids` | local/include/call/rtp_demuxer.h:170-172 | the loop regenerates the set from both MID tables |
| `RtpDemuxing.RtpDemuxer.AddSsrcSinkBinding` | local/include/call/rtp_demuxer.h:200-203 | true for a new or replaced binding, false if unchanged or at the limit |
| `RtpDemuxing.RtpDemuxer.ResolveSink` | local/include/call/rtp_demuxer.h:153-157 | performs the table operation that is proved to follow the seven rules |
| `RtpDemuxing.RtpDemuxer.OnRtpPacket` | local/include/call/rtp_demuxer.h:129-131 | forwards to the resolved sink; true exactly when there is one |
| `RtcpDemuxing.RecipientsExactly` | local/include/call/rtcp_demuxer.h:33-60 | over every run, a packet reaches a sink exactly when it is a broadcast sink or was joined to the sender's SSRC, directly or by the resolution of an RSID it was then registered for, and not removed since |
| `RtcpDemuxing.SsrcSinksAreLive` | local/include/call/rtcp_demuxer.h:62-71 | the SSRC table holds exactly those associations |
| `RtcpDemuxing.BroadcastSinksAreCounted` | local/include/call/rtcp_demuxer.h:48-57 | the broadcast table holds a sink once per registration not undone |
| `RtcpDemuxing.SsrcSinksAreCounted` | local/include/call/rtcp_demuxer.h:33-46 | the SSRC table holds an association once per direct registration since the sink was last removed, and once for resolutions that found none |
| `RtcpDemuxing.CallsExactly` | local/include/call/rtcp_demuxer.h:33-60 | over every run a packet is handed to a sink once per broadcast registration and once per association with the sender's SSRC, counted from the calls |
| `RtcpDemuxing.AssociateCount` | local/include/call/rtcp_demuxer.h:62-64 | resolving an RSID adds one association for each of its sinks that had none, and none for the others |
| `RtcpDemuxing.ResolvedRsidReachesSinks` | local/include/call/rtcp_demuxer.h:40-46 | once a packet resolves an RSID alone, the SSRC table has room and the SSRC is not yet bound to that RTP sink, every RTCP packet of the SSRC reaches each sink then registered for the RSID, after any further calls to both demuxers that do not remove it |
| `RtcpDemuxing.AnnouncesExactly` | local/include/call/rtcp_demuxer.h:62-64 | the RTP demuxer announces an RSID exactly under that condition on the tables and the packet before the call |
| `RtcpDemuxing.ReachedExactly` | local/include/call/rtcp_demuxer.h:40-46 | a packet makes a sink a recipient for its SSRC exactly if the sink was one already or is registered for an RSID the packet announces |
| `RtcpDemuxing.SessionRecipientsExactly` | local/include/call/rtcp_demuxer.h:33-64 | over every sequence of calls to both demuxers, a packet reaches a sink exactly when it is a broadcast sink or was joined to the sender's SSRC and not removed since: directly, or when a packet met the announcement condition for an RSID the sink was registered for at that moment |
| `RtcpDemuxing.SessionCallsExactly` | local/include/call/rtcp_demuxer.h:33-64 | the same count read off the calls to both demuxers |
| `RtcpDemuxing.MissedWhenBoundOrFull` | local/include/call/rtcp_demuxer.h:40-46 | a sink registered in time is reached exactly if the SSRC is not already bound to the RTP sink and the SSRC table is not full, although the packet is routed by the RSID in all cases |
| `RtcpDemuxing.MissedWithMid` | local/include/call/rtcp_demuxer.h:40-46 | a sink registered in time is not reached if the RSID is resolved together with a MID |
| `RtcpDemuxing.LateRsidSinkIsMissed` | local/include/call/rtcp_demuxer.h:40-46 | a sink registered for the RSID after it was resolved is not reached |
| `RtcpDemuxing.LateRsidSinkIsMissedInARun` | local/include/call/rtcp_demuxer.h:40-46 | a run of both demuxers from the start in which that happens |
| `RtcpDemuxing.RtcpDemuxer.AddSinkForSsrc` | local/include/call/rtcp_demuxer.h:33-38 | adds one association and keeps all others |
| `RtcpDemuxing.RtcpDemuxer.AddSinkForRsid` | local/include/call/rtcp_demuxer.h:40-46 | adds one RSID registration and joins the sink to no SSRC |
| `RtcpDemuxing.RtcpDemuxer.AddBroadcastSink` | local/include/call/rtcp_demuxer.h:48-51 | adds one broadcast registration |
| `RtcpDemuxing.RtcpDemuxer.RemoveSink` | local/include/call/rtcp_demuxer.h:53-54 | undoes all SSRC and RSID registrations of the sink and no others |
| `RtcpDemuxing.RtcpDemuxer.RemoveBroadcastSink` | local/include/call/rtcp_demuxer.h:56-57 | undoes one broadcast registration |
| `RtcpDemuxing.RtcpDemuxer.OnSsrcBoundToRsid` | local/include/call/rtcp_demuxer.h:62-64 | joins each sink of the RSID to the SSRC, without duplicating an association |
| `RtcpDemuxing.RtcpDemuxer.OnRtcpPacket` | local/include/call/rtcp_demuxer.h:59-60 | hands the packet to the sinks of the sender SSRC and to all broadcast sinks, as `CallsExactly` counts them |
| `RefModel.StepSafe` | local/include/api/scoped_refptr.h:76-156 | every operation on handles touches only live objects, keeps each live object's counter equal to its handles plus references handed out by release(), and deletes an object exactly when that sum drops to zero |
| `RefModel.RunSafe` | local/include/api/scoped_refptr.h:76-156 | hence no run that keeps the caller's side of the contract ever touches a deleted object |
| `RefModel.MoveAssignIsCopyThenClear` | local/include/api/scoped_refptr.h:130-148 | for all aliasing, moving into another handle leaves the same memory as copying and then clearing the source |
| `RefModel.SelfAssignmentIsHarmless` | local/include/api/scoped_refptr.h:120-142 | copying or moving a handle onto itself changes nothing |
| `RefModel.StepPoints` | local/include/api/scoped_refptr.h:76-156 | which handle points where after each operation |
| `ScopedRefptrs.RefCountedBase.AddRef` | local/include/api/ref_counted_base.h:23 | one more reference to a live object |
| `ScopedRefptrs.RefCountedBase.Release` | local/include/api/ref_counted_base.h:24-30 | one reference less; at zero the object is deleted and the status says so |
| `ScopedRefptrs.ScopedRefptr.constructor` | local/include/api/scoped_refptr.h:76-81 | points at the raw pointer and owns one reference to it |
| `ScopedRefptrs.ScopedRefptr.Copy` | local/include/api/scoped_refptr.h:83-86 | points where the other does and owns a reference of its own |
| `ScopedRefptrs.ScopedRefptr.Move` | local/include/api/scoped_refptr.h:94-95 | takes over the other's reference, leaving it null and all counters unchanged |
| `ScopedRefptrs.ScopedRefptr.Destroy` | local/include/api/scoped_refptr.h:100-103 | gives the reference up |
| `ScopedRefptrs.ScopedRefptr.Release` | local/include/api/scoped_refptr.h:109-118 | hands the reference to the caller without touching the counter |
| `ScopedRefptrs.ScopedRefptr.ReturnOwed` | local/include/rtc_base/ref_count.h:29-41 | the caller gives back a reference obtained from release() |
| `ScopedRefptrs.ScopedRefptr.AssignRaw` | local/include/api/scoped_refptr.h:120-128 | acquires before it releases, so the ownership invariant survives self-assignment |
| `ScopedRefptrs.ScopedRefptr.CopyAssign` | local/include/api/scoped_refptr.h:130-132 | assigns the other's pointer |
| `ScopedRefptrs.ScopedRefptr.MoveAssign` | local/include/api/scoped_refptr.h:139-142 | through a temporary: the target takes the source's reference, the source becomes null, and only the target's old object loses one; a self-move changes nothing |
| `ScopedRefptrs.ScopedRefptr.SwapRaw` | local/include/api/scoped_refptr.h:150-154 | exchanges the handle's pointer with a raw one the caller owns a reference to: no counter changes, and the caller owns what the handle held |
| `ScopedRefptrs.ScopedRefptr.Swap` | local/include/api/scoped_refptr.h:156 | exchanges the pointers and leaves all counters unchanged |
| `RtpPacketInfosModel.SharedRefinesByValue` | local/include/api/rtp_packet_infos.h:50-125 | over every run of build, copy, move, assign and destroy, each handle reads what a vector held by value would contain, null stands exactly for the empty vector, and no data that is read has been freed |
| `RtpPacketInfosModel.StepAgrees` | local/include/api/rtp_packet_infos.h:84-123 | one operation on the shared form is the same operation on by-value vectors |
| `DataChannelClose.FinishedUsesDelivered` | local/include/pc/data_channel.h:102-110 | every use of the stream id that one side has finished delivered, in both directions and in order, exactly the payloads of the Send moves taken while the channel was open |
| `DataChannelClose.ClosedMeansDrained` | local/include/pc/data_channel.h:186-189 | when a side is closed, no data or reset of that use is in flight in either direction |
| `DataChannelClose.NoStaleMessage` | local/include/pc/data_channel.h:216-221 | whatever arrives belongs to the use of the id it arrives in: no data, reset or acknowledgement of an earlier use reaches a new channel, and none acknowledges a closed one |
| `DataChannelClose.DataPrecedesReset` | local/include/pc/data_channel.h:103-105 | no data is behind a reset, and nothing is queued once the reset is out |
| `DataChannelClose.StepKeepsInv` | local/include/pc/data_channel.h:102-110 | the invariant of both ends and both directions that every interleaving keeps |
| `DataChannelClose.ReachableFlips` | local/include/pc/data_channel.h:102-110 | the runs are closed under exchanging the two sides, so what is stated of one side holds of both |
| `DataChannelClose.CloseCompletes` | local/include/pc/data_channel.h:102-110 | from every state that a run reaches, steps of the procedure alone take a closing side to closed in the same use of the id, and its peer too unless the peer is already in the next use |
| `DataChannelClose.CloseDelivers` | local/include/pc/data_channel.h:102-110 | from every reachable state with an open channel, Close and then steps of the procedure alone close it in the same use of the id, with everything it had accepted arrived at the peer |
| `DataChannelClose.WholeUseDelivers` | local/include/pc/data_channel.h:102-110 | from every reachable state with a free id, opening a channel, sending any payloads, closing it and then steps of the procedure alone bring the peer exactly these payloads in order and free the id |
| `DataChannelClose.ProtocolMakesProgress` | local/include/pc/data_channel.h:102-110 | in every state that a run reaches, each step of the procedure leaves strictly less to do |
| `DataChannelClose.EveryScheduleCloses` | local/include/pc/data_channel.h:102-110 | hence every schedule of these steps from a reachable state ends, and when no step is left neither side is still closing |
| `DataChannels.PacketQueue.PopFront` | local/include/pc/data_channel.h:242 | returns the oldest packet and keeps the byte count exact |
| `DataChannels.PacketQueue.PushFront` | local/include/pc/data_channel.h:244 | undoes PopFront |
| `DataChannels.PacketQueue.PushBack` | local/include/pc/data_channel.h:245 | appends and keeps the byte count exact |
| `DataChannels.PacketQueue.Clear` | local/include/pc/data_channel.h:247 | empties the queue and its byte count |
| `DataChannels.PacketQueue.Swap` | local/include/pc/data_channel.h:249 | exchanges contents and byte counts |
| `DataChannels.DataChannel.Send` | local/include/pc/data_channel.h:154 | accepts data only while open, as the two-party procedure's Send |
| `DataChannels.DataChannel.Close` | local/include/pc/data_channel.h:103 | an open channel becomes closing, any other keeps its state, and nothing else changes |
| `DataChannels.DataChannel.SendQueuedDataMessages` | local/include/pc/data_channel.h:272 | sends the front of the queue in order, as much as the transport takes, and keeps the rest in order; for any peer and stream that is as many sending moves of the two-party procedure |
| `DataChannels.DataChannel.RemoveSctpDataStreamIfDrained` | local/include/pc/data_channel.h:104-105 | sends the reset once, and only when closing with an empty queue |
| `DataChannels.DataChannel.OnDataReceived` | local/include/pc/data_channel.h:172-174 | the arriving payload is logged as the two-party procedure does |
| `DataChannels.DataChannel.OnResetAcknowledged` | local/include/pc/data_channel.h:108-110 | the acknowledgement closes the channel if that was all it waited for |
| `DataChannels.DataChannel.OnClosingProcedureStartedRemotely` | local/include/pc/data_channel.h:183-185 | an incoming reset makes the channel closing, or closed if that was all it waited for |
| `DataChannels.DataChannel.OnClosingProcedureComplete` | local/include/pc/data_channel.h:186-189 | closed exactly when both resets are done |
| `SctpSids.SctpSidAllocator.AllocateSid` | local/include/pc/data_channel.h:67-71 | returns the least unused even id for the client and odd id for the server, and fails only if all of them are taken |
| `SctpSids.SctpSidAllocator.ReserveSid` | local/include/pc/data_channel.h:73-74 | succeeds exactly for an available id |
| `SctpSids.SctpSidAllocator.ReleaseSid` | local/include/pc/data_channel.h:76-77 | frees the id and no other |
| `SctpSids.AllocationsNeverCollide` | local/include/pc/data_channel.h:67-84 | in every interleaving of two endpoints the client's allocated ids are even and the server's odd, so they are disjoint |
| `OfferAnswer.QuiescentPeersAgree` | local/include/api/peer_connection_interface.h:939-957 | unless both peers roll back implicitly, in every run with colliding and replaced offers, provisional answers and rollback in which offers already sent are left alone, when both peers are stable and nothing is on its way each one's current descriptions are the other's and nothing is pending |
| `OfferAnswer.AgreementExactly` | local/include/api/peer_connection_interface.h:663-664 | that holds for all runs exactly if not both peers enable implicit rollback and sent offers are neither rolled back nor replaced |
| `OfferAnswer.BothRollingBackDisagree` | local/include/api/peer_connection_interface.h:663-664 | a run of two such peers that ends in disagreement |
| `OfferAnswer.RollbackOfSentOfferDisagrees` | local/include/api/jsep.h:110-111 | rolling back an offer already sent ends in disagreement for any configuration |
| `OfferAnswer.ReplacedOfferDisagrees` | local/include/api/peer_connection_interface.h:977-983 | setting another offer after one was sent ends in disagreement for any configuration |
| `OfferAnswer.ExchangeCompletes` | local/include/api/peer_connection_interface.h:30-60 | from any quiescent state an exchange with any number of provisional answers goes through, both peers hold its offer and final answer, and the next exchange can start |
| `OfferAnswer.ProvisionalAnswersArrive` | local/include/api/peer_connection_interface.h:944-957 | after each provisional answer both peers' states and pending descriptions are those of the exchange so far, and nothing else has changed |
| `OfferAnswer.DescriptionsFitState` | local/include/api/peer_connection_interface.h:944-957 | after any calls, pending are exactly the descriptions of the incomplete exchange the state names, and current ones form a finished exchange |
| `OfferAnswer.PeerConnection.SetLocalDescription` | local/include/api/peer_connection_interface.h:977-983 | succeeds exactly for an offer in stable or have-local-offer and for an answer, provisional or not, in have-remote-offer or have-local-pranswer; gives the new state and all four descriptions; on failure changes nothing |
| `OfferAnswer.PeerConnection.SetRemoteDescription` | local/include/api/peer_connection_interface.h:989-997 | the same for the remote side, with implicit rollback of a local offer if enabled |
| `AbsoluteSendTime.TickDeltaIsNearest` | local/include/api/rtp_headers.h:108-113 | shift, cast and shift give the only value in [-2^23, 2^23) congruent to the stamp difference modulo 2^24 |
| `AbsoluteSendTime.DeltaIsElapsed` | local/include/api/rtp_headers.h:108-113 | the delta of two stamps is the true elapsed time exactly when that lies in [-2^23, 2^23) |
| `AbsoluteSendTime.DeltasUnwrap` | local/include/api/rtp_headers.h:108-113 | over any number of wraps the deltas add up to the elapsed ticks |
| `AbsoluteSendTime.TimestampIsFloor` | local/include/api/rtp_headers.h:99-106 | a timestamp is the stamp in whole microseconds, rounded down |
| `AbsoluteSendTime.RoundingAddsUp` | local/include/api/rtp_headers.h:108-115 | n converted deltas are off by less than n microseconds in total |
| `AbsoluteSendTime.DeltaMatchesTimestamps` | local/include/api/rtp_headers.h:99-115 | converted delta and difference of converted timestamps agree to one microsecond modulo 64,000,000 |
| `AbsoluteSendTime.NothingOverflows` | local/include/api/rtp_headers.h:99-115 | timestamps stay below 64 seconds and every product fits in 64 bits |
| `MediaStreamTracks.MediaStreamTrack.RegisterObserver` | local/include/api/notifier.h:28-31 | adds one registration at the end |
| `MediaStreamTracks.MediaStreamTrack.UnregisterObserver` | local/include/api/notifier.h:33-41 | the loop removes the first registration of the observer, if any |
| `Common.EraseFirstCount` | local/include/api/notifier.h:33-41 | that is one registration of that observer and none of any other |
| `MediaStreamTracks.MediaStreamTrack.FireOnChanged` | local/include/api/notifier.h:43-52 | calls exactly the observers registered when it began, in order, once per registration, whatever the callbacks register or unregister meanwhile |
| `MediaStreamTracks.MediaStreamTrack.SetEnabled` | local/include/pc/media_stream_track.h:33-40 | stores the value; notifies, and returns true, only on a change |
| `MediaStreamTracks.MediaStreamTrack.SetState` | local/include/pc/media_stream_track.h:46-52 | stores the value; notifies only on a change and always returns true |
| `MediaStreamTracks.CallsAreOwed` | local/include/pc/media_stream_track.h:33-52 | over every run an observer's calls are its registrations summed over the steps that really changed the track |
| `MediaStreamTracks.LastSetterWins` | local/include/pc/media_stream_track.h:33-52 | over every run the track holds what the last call of each setter asked for |
| `MediaStreamTracks.NotificationThenEdits` | local/include/api/notifier.h:43-52 | what callbacks register and unregister during a notification takes effect as if the same calls were made after it |
| `ArrayViews.SubviewsClip` | local/include/api/array_view.h:262-270 | any chain of subviews, with or without sizes, denotes the same clipped cuts of the plain sequence |
| `ArrayViews.SubviewAll` | local/include/api/array_view.h:129-160 | no chain of subviews leaves the array, and the pointer is null exactly when the size is zero |
| `ArrayViews.ChainIsOneSubview` | local/include/api/array_view.h:262-270 | any chain of subviews has the pointer and size of one subview, with the offsets added and the tightest size |

## Left out

- src/network.cpp and src/websocket.cpp: sockets, JSON and threads over libraries that are not part of this model.
- Threads and atomics of the reference counter: IncRef and DecRef are single steps; counter overflow is not modelled.
- Handles stored inside counted objects, so that deleting one object releases others.
- RtpPacketInfosModel.SharedRefinesByValue: stated on the explicit memory of `RefModel`; it has no class of its own, because its copies and moves are those of `ScopedRefptr`.
- RtpPacketInfos element accessors and iterators: they only read the vector that is proved to be the right one.
- DemuxerHelper.RemoveFromMultimapByValue: takes the container by value and returns it; the caller assigns it back. Entries are kept in insertion order, and the order between different keys is not modelled.
- RtpDemuxer observer registration: each announcement is a result of the call; the list of observers is not modelled.
- DescribePacket and RTCP header parsing: the sender SSRC, or its absence, is a parameter.
- DataChannel handshake messages, control messages, abrupt close, buffer limit and RTP data channels.
- The closed signalling state, ICE candidates and the contents of descriptions.
- local_description() and remote_description(), which pick the pending description if there is one.
- MediaStreamTracks.MediaStreamTrack.FireOnChanged: callbacks that call the track's setters again are not modelled.
- Fixed-size array views and element access.
- The proxy classes, statistics and configuration structures.
