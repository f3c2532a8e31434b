/** The RTP demultiplexer: its operations update the routing tables in place. */
module Demuxer {
  import opened Options
  import opened DemuxerTables

  class RtpDemuxer {
    const useMid: bool
    var sinkByMid: map<string, Sink>
    var sinkBySsrc: map<Ssrc, Sink>
    var sinksByPt: map<PayloadType, seq<Sink>>
    var sinkByMidAndRsid: map<(string, string), Sink>
    var sinkByRsid: map<string, Sink>
    var knownMids: set<string>
    var midBySsrc: map<Ssrc, string>
    var rsidBySsrc: map<Ssrc, string>

    ghost function View(): Tables
      reads this
    {
      Tables(useMid, sinkByMid, sinkBySsrc, sinksByPt, sinkByMidAndRsid, sinkByRsid, knownMids, midBySsrc, rsidBySsrc)
    }

    constructor (useMid: bool)
      ensures View() == Fresh(useMid)
    {
      this.useMid := useMid;
      sinkByMid, sinkBySsrc, sinksByPt, sinkByMidAndRsid, sinkByRsid := map[], map[], map[], map[], map[];
      knownMids, midBySsrc, rsidBySsrc := {}, map[], map[];
    }

    method CriteriaWouldConflict(criteria: Criteria) returns (conflict: bool)
      ensures conflict == Conflicts(View(), criteria)
    {
      if criteria.mid != "" {
        if criteria.rsid == "" {
          if criteria.mid in knownMids { return true; }
        } else {
          if (criteria.mid, criteria.rsid) in sinkByMidAndRsid { return true; }
          if criteria.mid in sinkByMid { return true; }
        }
      }
      var ssrcs := criteria.ssrcs;
      while ssrcs != {}
        invariant ssrcs <= criteria.ssrcs
        invariant forall s :: s in criteria.ssrcs - ssrcs ==> s !in sinkBySsrc
        decreases ssrcs
      {
        var ssrc :| ssrc in ssrcs;
        if ssrc in sinkBySsrc { return true; }
        ssrcs := ssrcs - {ssrc};
      }
      conflict := false;
    }

    method RefreshKnownMids()
      modifies this`knownMids
      ensures knownMids == RegisteredMids(sinkByMid, sinkByMidAndRsid)
    {
      knownMids := {};
      var mids := sinkByMid.Keys;
      while mids != {}
        invariant mids <= sinkByMid.Keys && knownMids == sinkByMid.Keys - mids
        decreases mids
      {
        var mid :| mid in mids;
        knownMids := knownMids + {mid};
        mids := mids - {mid};
      }
      var pairs := sinkByMidAndRsid.Keys;
      while pairs != {}
        invariant pairs <= sinkByMidAndRsid.Keys
        invariant knownMids == sinkByMid.Keys + (set p | p in sinkByMidAndRsid && p !in pairs :: p.0)
        decreases pairs
      {
        var pair :| pair in pairs;
        knownMids := knownMids + {pair.0};
        pairs := pairs - {pair};
      }
    }

    /** Registers a sink, or refuses it and changes nothing. */
    method AddSink(criteria: Criteria, sink: Sink) returns (added: bool)
      modifies this
      ensures added == !Conflicts(old(View()), criteria)
      ensures View() == Step(old(View()), Add(criteria, sink))
    {
      var conflict := CriteriaWouldConflict(criteria);
      if conflict { return false; }
      AddIdentifiers(criteria, sink);
      AddSsrcs(criteria.ssrcs, sink);
      AddPayloadTypes(criteria.payloadTypes, sink);
      RefreshKnownMids();
      added := true;
    }

    method AddIdentifiers(criteria: Criteria, sink: Sink)
      modifies this`sinkByMid, this`sinkByMidAndRsid, this`sinkByRsid
      ensures sinkByMid == Added(old(View()), criteria, sink).sinkByMid
      ensures sinkByMidAndRsid == Added(old(View()), criteria, sink).sinkByMidAndRsid
      ensures sinkByRsid == Added(old(View()), criteria, sink).sinkByRsid
    {
      if criteria.mid != "" {
        if criteria.rsid == "" {
          sinkByMid := Emplaced(sinkByMid, criteria.mid, sink);
        } else {
          sinkByMidAndRsid := Emplaced(sinkByMidAndRsid, (criteria.mid, criteria.rsid), sink);
        }
      } else if criteria.rsid != "" {
        sinkByRsid := Emplaced(sinkByRsid, criteria.rsid, sink);
      }
    }

    method AddSsrcs(ssrcs: set<Ssrc>, sink: Sink)
      modifies this`sinkBySsrc
      ensures sinkBySsrc == (map s | s in ssrcs :: sink) + old(sinkBySsrc)
    {
      var rest := ssrcs;
      while rest != {}
        invariant rest <= ssrcs && sinkBySsrc == (map s | s in ssrcs - rest :: sink) + old(sinkBySsrc)
        decreases rest
      {
        var ssrc :| ssrc in rest;
        sinkBySsrc := Emplaced(sinkBySsrc, ssrc, sink);
        rest := rest - {ssrc};
      }
    }

    method AddPayloadTypes(payloadTypes: set<PayloadType>, sink: Sink)
      modifies this`sinksByPt
      ensures sinksByPt == WithPt(old(sinksByPt), payloadTypes, sink)
    {
      var rest := payloadTypes;
      WithNoPt(sinksByPt, sink);
      assert payloadTypes - rest == {};
      while rest != {}
        invariant rest <= payloadTypes && sinksByPt == WithPt(old(sinksByPt), payloadTypes - rest, sink)
        decreases rest
      {
        var pt :| pt in rest;
        WithOneMorePt(old(sinksByPt), payloadTypes - rest, pt, sink);
        assert payloadTypes - (rest - {pt}) == payloadTypes - rest + {pt};
        sinksByPt := sinksByPt[pt := (if pt in sinksByPt then sinksByPt[pt] else []) + [sink]];
        rest := rest - {pt};
      }
      assert payloadTypes - rest == payloadTypes;
    }

    static method RemoveFromMapByValue<K>(m: map<K, Sink>, sink: Sink) returns (r: map<K, Sink>, count: nat)
      ensures r == DropSink(m, sink) && (count > 0 <==> sink in m.Values)
    {
      r, count := map[], 0;
      var keys := m.Keys;
      while keys != {}
        invariant keys <= m.Keys
        invariant r == map k | k in m && k !in keys && m[k] != sink :: m[k]
        invariant count > 0 <==> exists k :: k in m && k !in keys && m[k] == sink
        decreases keys
      {
        var k :| k in keys;
        if m[k] == sink { count := count + 1; } else { r := r[k := m[k]]; }
        keys := keys - {k};
      }
    }

    static method RemoveFromMultimapByValue(m: map<PayloadType, seq<Sink>>, sink: Sink)
      returns (r: map<PayloadType, seq<Sink>>, count: nat)
      ensures r == DropSinks(m, sink)
      ensures count > 0 <==> ByPt(m, sink)
    {
      r, count := map[], 0;
      var keys := m.Keys;
      while keys != {}
        invariant keys <= m.Keys
        invariant r == map pt | pt in m && pt !in keys && Others(m[pt], sink) != [] :: Others(m[pt], sink)
        invariant count > 0 <==> exists pt :: pt in m && pt !in keys && sink in m[pt]
        decreases keys
      {
        var pt :| pt in keys;
        if sink in m[pt] { count := count + 1; }
        if Others(m[pt], sink) != [] { r := r[pt := Others(m[pt], sink)]; }
        keys := keys - {pt};
      }
    }

    /** Forgets every rule that leads to the sink; what was learned about streams is kept. */
    method RemoveSink(sink: Sink) returns (removed: bool)
      modifies this
      ensures View() == Step(old(View()), Remove(sink))
      ensures removed == Knows(old(View()), sink)
    {
      var n1, n2, n3, n4, n5;
      sinkByMid, n1 := RemoveFromMapByValue(sinkByMid, sink);
      sinkBySsrc, n2 := RemoveFromMapByValue(sinkBySsrc, sink);
      sinksByPt, n3 := RemoveFromMultimapByValue(sinksByPt, sink);
      sinkByMidAndRsid, n4 := RemoveFromMapByValue(sinkByMidAndRsid, sink);
      sinkByRsid, n5 := RemoveFromMapByValue(sinkByRsid, sink);
      RefreshKnownMids();
      removed := n1 + n2 + n3 + n4 + n5 > 0;
    }

    method AddSsrcSinkBinding(ssrc: Ssrc, sink: Sink)
      modifies this`sinkBySsrc
      ensures sinkBySsrc == Bound(old(sinkBySsrc), ssrc, sink)
    {
      if |sinkBySsrc| >= MAX_SSRC_BINDINGS { return; }
      if ssrc !in sinkBySsrc || sinkBySsrc[ssrc] != sink { sinkBySsrc := sinkBySsrc[ssrc := sink]; }
    }

    /** Finds the sink for a packet and learns what the packet says about its stream. */
    method ResolveSink(packet: Packet) returns (sink: Option<Sink>)
      modifies this`sinkBySsrc, this`midBySsrc, this`rsidBySsrc
      ensures sink == Route(old(View()), packet) && View() == Step(old(View()), Receive(packet))
    {
      var packetMid := if useMid then packet.midExt else None;
      var packetRsid := if packet.repairedRsidExt.Some? then packet.repairedRsidExt else packet.rsidExt;
      var ssrc := packet.ssrc;
      if packetMid.Some? && packetMid.value !in knownMids { return None; }
      var mid, rsid;
      mid, midBySsrc := Latch(midBySsrc, ssrc, packetMid);
      rsid, rsidBySsrc := Latch(rsidBySsrc, ssrc, packetRsid);
      sink := ResolveStream(packet, mid, rsid, old(View()));
    }

    /** Finds the sink by the identifiers of the packet's stream and binds the stream to it; the tables were t
        before the packet. */
    method ResolveStream(packet: Packet, mid: Option<string>, rsid: Option<string>, ghost t: Tables)
      returns (sink: Option<Sink>)
      requires !UnknownMid(t, packet) && mid == MidOf(t, packet) && rsid == RsidOf(t, packet)
      requires t == View().(midBySsrc := t.midBySsrc, rsidBySsrc := t.rsidBySsrc)
      modifies this`sinkBySsrc
      ensures sink == Route(t, packet) && sinkBySsrc == AfterPacket(t, packet).sinkBySsrc
    {
      if mid.Some? {
        sink := ResolveWithMid(mid.value, rsid, packet.ssrc);
      } else {
        sink := ResolveWithoutMid(rsid, packet.ssrc, packet.payloadType);
      }
    }

    /** A stream with a MID is routed by it, or by its RSID within it, and by nothing else. */
    method ResolveWithMid(mid: string, rsid: Option<string>, ssrc: Ssrc) returns (sink: Option<Sink>)
      modifies this`sinkBySsrc
      ensures sink == if mid in sinkByMid then Some(sinkByMid[mid])
                      else if rsid.Some? then Find(sinkByMidAndRsid, (mid, rsid.value)) else None
      ensures sinkBySsrc == if sink.Some? then Bound(old(sinkBySsrc), ssrc, sink.value) else old(sinkBySsrc)
    {
      sink := ResolveIn(sinkByMid, mid, ssrc);
      if sink.Some? { return; }
      if rsid.Some? { sink := ResolveIn(sinkByMidAndRsid, (mid, rsid.value), ssrc); }
    }

    /** Any other stream is routed by its RSID, its SSRC or its payload type. */
    method ResolveWithoutMid(rsid: Option<string>, ssrc: Ssrc, payloadType: PayloadType) returns (sink: Option<Sink>)
      modifies this`sinkBySsrc
      ensures sink == if rsid.Some? && rsid.value in sinkByRsid then Some(sinkByRsid[rsid.value])
                      else if ssrc in old(sinkBySsrc) then Some(old(sinkBySsrc)[ssrc])
                      else if payloadType in sinksByPt && |sinksByPt[payloadType]| == 1
                      then Some(sinksByPt[payloadType][0]) else None
      ensures sinkBySsrc == if sink.Some? && ((rsid.Some? && rsid.value in sinkByRsid) || ssrc !in old(sinkBySsrc))
                            then Bound(old(sinkBySsrc), ssrc, sink.value) else old(sinkBySsrc)
    {
      if rsid.Some? {
        sink := ResolveIn(sinkByRsid, rsid.value, ssrc);
        if sink.Some? { return; }
      }
      if ssrc in sinkBySsrc { return Some(sinkBySsrc[ssrc]); }
      sink := ResolveSinkByPayloadType(payloadType, ssrc);
    }

    /** Remembers the identifier a packet shows, or recalls the one its stream showed last. */
    static method Latch(known: map<Ssrc, string>, ssrc: Ssrc, shown: Option<string>)
      returns (id: Option<string>, after: map<Ssrc, string>)
      ensures id == if shown.Some? then shown else Find(known, ssrc)
      ensures after == if shown.Some? then known[ssrc := shown.value] else known
    {
      after := known;
      if shown.Some? {
        after := known[ssrc := shown.value];
        return shown, after;
      }
      id := if ssrc in known then Some(known[ssrc]) else None;
    }

    /** Looks an identifier up and binds the stream to the sink found. */
    method ResolveIn<K(==)>(table: map<K, Sink>, key: K, ssrc: Ssrc) returns (sink: Option<Sink>)
      modifies this`sinkBySsrc
      ensures sink == Find(table, key)
      ensures sinkBySsrc == if key in table then Bound(old(sinkBySsrc), ssrc, table[key]) else old(sinkBySsrc)
    {
      if key !in table { return None; }
      AddSsrcSinkBinding(ssrc, table[key]);
      sink := Some(table[key]);
    }

    method ResolveSinkByPayloadType(payloadType: PayloadType, ssrc: Ssrc) returns (sink: Option<Sink>)
      modifies this`sinkBySsrc
      ensures sink == if payloadType in sinksByPt && |sinksByPt[payloadType]| == 1 then Some(sinksByPt[payloadType][0])
                      else None
      ensures sinkBySsrc == if sink.Some? then Bound(old(sinkBySsrc), ssrc, sink.value) else old(sinkBySsrc)
    {
      if payloadType in sinksByPt && |sinksByPt[payloadType]| == 1 {
        AddSsrcSinkBinding(ssrc, sinksByPt[payloadType][0]);
        return Some(sinksByPt[payloadType][0]);
      }
      sink := None;
    }
  }
}
