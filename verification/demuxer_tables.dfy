/** The routing tables of the RTP demultiplexer as a value: adding and removing sinks, routing a
    packet, and what holds over every run of these. */
module DemuxerTables {
  import opened Options

  type Sink = nat
  type Ssrc = nat
  type PayloadType = nat

  const MAX_SSRC_BINDINGS: nat := 1000

  /** An empty string stands for an identifier that is not part of the criteria. */
  datatype Criteria = Criteria(mid: string, rsid: string, ssrcs: set<Ssrc>, payloadTypes: set<PayloadType>)

  datatype Packet = Packet(ssrc: Ssrc, payloadType: PayloadType, midExt: Option<string>,
                           rsidExt: Option<string>, repairedRsidExt: Option<string>)

  datatype Tables = Tables(
    useMid: bool,
    sinkByMid: map<string, Sink>,
    sinkBySsrc: map<Ssrc, Sink>,
    sinksByPt: map<PayloadType, seq<Sink>>,
    sinkByMidAndRsid: map<(string, string), Sink>,
    sinkByRsid: map<string, Sink>,
    knownMids: set<string>,
    midBySsrc: map<Ssrc, string>,
    rsidBySsrc: map<Ssrc, string>)

  function Fresh(useMid: bool): Tables { Tables(useMid, map[], map[], map[], map[], map[], {}, map[], map[]) }

  /** The MIDs registered, alone or together with an RSID. */
  function RegisteredMids(byMid: map<string, Sink>, byPair: map<(string, string), Sink>): set<string> {
    byMid.Keys + (set p | p in byPair :: p.0)
  }

  function Emplaced<K, V>(m: map<K, V>, k: K, v: V): map<K, V> { if k in m then m else m[k := v] }

  // ---- Adding and removing sinks ----------------------------------------------

  /** Adding the criteria would shadow a rule, or be shadowed by one, or take an SSRC away. */
  predicate Conflicts(t: Tables, c: Criteria) {
    || (c.mid != "" && c.rsid == "" && c.mid in t.knownMids)
    || (c.mid != "" && c.rsid != "" && ((c.mid, c.rsid) in t.sinkByMidAndRsid || c.mid in t.sinkByMid))
    || (exists s :: s in c.ssrcs && s in t.sinkBySsrc)
  }

  /** The payload types with one more sink. */
  function WithPt(m: map<PayloadType, seq<Sink>>, pts: set<PayloadType>, sink: Sink): map<PayloadType, seq<Sink>> {
    map pt | pt in m.Keys + pts :: (if pt in m then m[pt] else []) + (if pt in pts then [sink] else [])
  }

  lemma WithNoPt(m: map<PayloadType, seq<Sink>>, sink: Sink)
    ensures WithPt(m, {}, sink) == m
  {
    var r := WithPt(m, {}, sink);
    forall pt | pt in m ensures r[pt] == m[pt] {
      assert m[pt] + [] == m[pt];
    }
  }

  lemma WithOneMorePt(m: map<PayloadType, seq<Sink>>, pts: set<PayloadType>, pt: PayloadType, sink: Sink)
    requires pt !in pts
    ensures var r := WithPt(m, pts, sink);
            WithPt(m, pts + {pt}, sink) == r[pt := (if pt in r then r[pt] else []) + [sink]]
  {
    var r := WithPt(m, pts, sink);
    var r1 := WithPt(m, pts + {pt}, sink);
    assert pt in m ==> r[pt] == m[pt] + [] == m[pt];
  }

  function Added(t: Tables, c: Criteria, sink: Sink): Tables {
    var byMid := if c.mid != "" && c.rsid == "" then Emplaced(t.sinkByMid, c.mid, sink) else t.sinkByMid;
    var byPair := if c.mid != "" && c.rsid != "" then Emplaced(t.sinkByMidAndRsid, (c.mid, c.rsid), sink)
                  else t.sinkByMidAndRsid;
    t.(sinkByMid := byMid,
    sinkByMidAndRsid := byPair,
    sinkByRsid := if c.mid == "" && c.rsid != "" then Emplaced(t.sinkByRsid, c.rsid, sink) else t.sinkByRsid,
    sinkBySsrc := (map s | s in c.ssrcs :: sink) + t.sinkBySsrc,
    sinksByPt := WithPt(t.sinksByPt, c.payloadTypes, sink),
    knownMids := RegisteredMids(byMid, byPair))
  }

  function Others(sinks: seq<Sink>, sink: Sink): (r: seq<Sink>)
    ensures sink !in r && forall s :: s in r ==> s in sinks
    ensures forall s :: s in sinks && s != sink ==> s in r
  {
    if sinks == [] then []
    else (if sinks[0] == sink then [] else [sinks[0]]) + Others(sinks[1..], sink)
  }

  function DropSink<K>(m: map<K, Sink>, sink: Sink): map<K, Sink> { map k | k in m && m[k] != sink :: m[k] }

  function DropSinks(m: map<PayloadType, seq<Sink>>, sink: Sink): map<PayloadType, seq<Sink>> {
    map pt | pt in m && Others(m[pt], sink) != [] :: Others(m[pt], sink)
  }

  function Removed(t: Tables, sink: Sink): Tables {
    var byMid := DropSink(t.sinkByMid, sink);
    var byPair := DropSink(t.sinkByMidAndRsid, sink);
    t.(sinkByMid := byMid, sinkBySsrc := DropSink(t.sinkBySsrc, sink),
    sinksByPt := DropSinks(t.sinksByPt, sink),
    sinkByMidAndRsid := byPair, sinkByRsid := DropSink(t.sinkByRsid, sink),
    knownMids := RegisteredMids(byMid, byPair))
  }

  // ---- Routing a packet ---------------------------------------------------------

  function PacketMid(t: Tables, p: Packet): Option<string> { if t.useMid then p.midExt else None }

  /** A repaired stream's id takes precedence over the stream's own. */
  function PacketRsid(p: Packet): Option<string> { if p.repairedRsidExt.Some? then p.repairedRsidExt else p.rsidExt }

  /** A packet with a MID that nobody registered is dropped before anything is learned from it. */
  predicate UnknownMid(t: Tables, p: Packet) {
    PacketMid(t, p).Some? && PacketMid(t, p).value !in t.knownMids
  }

  /** The MID of a packet's stream: from the packet, or learned earlier. */
  function MidOf(t: Tables, p: Packet): Option<string> {
    if PacketMid(t, p).Some? then PacketMid(t, p)
    else if p.ssrc in t.midBySsrc then Some(t.midBySsrc[p.ssrc]) else None
  }

  function RsidOf(t: Tables, p: Packet): Option<string> {
    if PacketRsid(p).Some? then PacketRsid(p)
    else if p.ssrc in t.rsidBySsrc then Some(t.rsidBySsrc[p.ssrc]) else None
  }

  function Find<K, V>(m: map<K, V>, k: K): Option<V> { if k in m then Some(m[k]) else None }

  /** The rules in order: MID, MID with RSID, RSID, signalled or learned SSRC, unambiguous payload type. */
  function Route(t: Tables, p: Packet): Option<Sink> {
    if UnknownMid(t, p) then None
    else if MidOf(t, p).Some? then
      var mid := MidOf(t, p).value;
      if mid in t.sinkByMid then Some(t.sinkByMid[mid])
      else if RsidOf(t, p).Some? then Find(t.sinkByMidAndRsid, (mid, RsidOf(t, p).value))
      else None
    else if RsidOf(t, p).Some? && RsidOf(t, p).value in t.sinkByRsid then Some(t.sinkByRsid[RsidOf(t, p).value])
    else if p.ssrc in t.sinkBySsrc then Some(t.sinkBySsrc[p.ssrc])
    else if p.payloadType in t.sinksByPt && |t.sinksByPt[p.payloadType]| == 1 then Some(t.sinksByPt[p.payloadType][0])
    else None
  }

  /** The SSRC itself decided; nothing new is learned about it. */
  predicate RoutedBySsrc(t: Tables, p: Packet) {
    MidOf(t, p).None? && !(RsidOf(t, p).Some? && RsidOf(t, p).value in t.sinkByRsid) && p.ssrc in t.sinkBySsrc
  }

  /** A binding learned from a packet, unless the table is full. */
  function Bound(m: map<Ssrc, Sink>, ssrc: Ssrc, sink: Sink): map<Ssrc, Sink> {
    if |m| >= MAX_SSRC_BINDINGS then m else m[ssrc := sink]
  }

  /** The tables after a packet: its MID and RSID latched and its SSRC bound. */
  function AfterPacket(t: Tables, p: Packet): Tables {
    if UnknownMid(t, p) then t
    else
      t.(midBySsrc := if PacketMid(t, p).Some? then t.midBySsrc[p.ssrc := PacketMid(t, p).value] else t.midBySsrc,
      rsidBySsrc := if PacketRsid(p).Some? then t.rsidBySsrc[p.ssrc := PacketRsid(p).value] else t.rsidBySsrc,
      sinkBySsrc := if Route(t, p).Some? && !RoutedBySsrc(t, p) then Bound(t.sinkBySsrc, p.ssrc, Route(t, p).value)
                    else t.sinkBySsrc)
  }

  // ---- Runs -----------------------------------------------------------------------

  datatype Op = Add(criteria: Criteria, sink: Sink) | Remove(removed: Sink) | Receive(packet: Packet)

  function Step(t: Tables, op: Op): Tables {
    match op
    case Add(c, s) => if Conflicts(t, c) then t else Added(t, c, s)
    case Remove(s) => Removed(t, s)
    case Receive(p) => AfterPacket(t, p)
  }

  function After(t: Tables, ops: seq<Op>): Tables
  {
    if ops == [] then t else Step(After(t, ops[..|ops| - 1]), ops[|ops| - 1])
  }

  /** The sink that receives the packet of operation i, if it is one and is routed. */
  function Receiver(t: Tables, ops: seq<Op>, i: nat): Option<Sink>
    requires i < |ops|
  {
    if ops[i].Receive? then Route(After(t, ops[..i]), ops[i].packet) else None
  }

  /** The known MIDs are exactly the registered ones, and no MID is registered both alone and with an RSID. */
  ghost predicate Shape(t: Tables) {
    && t.knownMids == RegisteredMids(t.sinkByMid, t.sinkByMidAndRsid)
    && forall p :: p in t.sinkByMidAndRsid ==> p.0 !in t.sinkByMid
  }

  /** Some rule leads to the sink. */
  ghost predicate Knows(t: Tables, s: Sink) {
    || s in t.sinkByMid.Values || s in t.sinkBySsrc.Values || s in t.sinkByMidAndRsid.Values || s in t.sinkByRsid.Values
    || ByPt(t.sinksByPt, s)
  }

  ghost predicate ByPt(m: map<PayloadType, seq<Sink>>, s: Sink) { exists pt :: pt in m && s in m[pt] }

  lemma StepShape(t: Tables, op: Op)
    requires Shape(t)
    ensures Shape(Step(t, op))
  {
    if op.Add? && !Conflicts(t, op.criteria) { AddedShape(t, op.criteria, op.sink); }
  }

  lemma AddedShape(t: Tables, c: Criteria, s: Sink)
    requires Shape(t) && !Conflicts(t, c)
    ensures Shape(Added(t, c, s))
  {
    var u := Added(t, c, s);
    forall p | p in u.sinkByMidAndRsid ensures p.0 !in u.sinkByMid {
      if p in t.sinkByMidAndRsid { assert p.0 in t.knownMids; }
    }
  }

  lemma {:induction false} ShapeKept(t: Tables, ops: seq<Op>)
    requires Shape(t)
    ensures Shape(After(t, ops))
  {
    if ops != [] {
      ShapeKept(t, ops[..|ops| - 1]);
      StepShape(After(t, ops[..|ops| - 1]), ops[|ops| - 1]);
    }
  }

  /** Over every run from an empty demultiplexer, the tables keep their shape. */
  lemma RunShape(useMid: bool, ops: seq<Op>)
    ensures Shape(After(Fresh(useMid), ops))
  {
    ShapeKept(Fresh(useMid), ops);
  }

  lemma RouteKnown(t: Tables, p: Packet)
    ensures Route(t, p).Some? ==> Knows(t, Route(t, p).value)
  {
  }

  /** No operation but adding it makes an unknown sink known, and removing a sink makes it unknown. */
  lemma StepKnows(t: Tables, op: Op, s: Sink)
    requires !Knows(t, s) || op == Remove(s)
    requires !(op.Add? && op.sink == s)
    ensures !Knows(Step(t, op), s)
  {
    match op {
      case Add(c, k) => AddKnows(t, c, k, s);
      case Remove(k) => RemoveKnows(t, k, s);
      case Receive(p) => RouteKnown(t, p);
    }
  }

  lemma AddKnows(t: Tables, c: Criteria, k: Sink, s: Sink)
    requires !Knows(t, s) && k != s
    ensures !Knows(Step(t, Add(c, k)), s)
  {
    var u := Step(t, Add(c, k));
    forall pt | pt in u.sinksByPt ensures s !in u.sinksByPt[pt] {
      if pt in t.sinksByPt { assert s !in t.sinksByPt[pt]; }
    }
  }

  lemma RemoveKnows(t: Tables, k: Sink, s: Sink)
    requires !Knows(t, s) || k == s
    ensures !Knows(Step(t, Remove(k)), s)
  {
    var u := Step(t, Remove(k));
    forall pt | pt in u.sinksByPt ensures s !in u.sinksByPt[pt] {
      assert forall x :: x in Others(t.sinksByPt[pt], k) ==> x in t.sinksByPt[pt] && x != k;
    }
  }

  /** The sink is removed by operation i and not added again up to operation k. */
  ghost predicate Gone(ops: seq<Op>, i: nat, k: nat, s: Sink)
    requires k <= |ops|
  {
    i < k && ops[i] == Remove(s) && forall j :: i < j < k ==> !(ops[j].Add? && ops[j].sink == s)
  }

  lemma {:induction false} GoneUnknown(t: Tables, ops: seq<Op>, i: nat, k: nat, s: Sink)
    requires k <= |ops| && Gone(ops, i, k, s)
    ensures !Knows(After(t, ops[..k]), s)
    decreases k
  {
    assert ops[..k][..k - 1] == ops[..k - 1];
    if i < k - 1 { GoneUnknown(t, ops, i, k - 1, s); }
    StepKnows(After(t, ops[..k - 1]), ops[k - 1], s);
  }

  /** Over every run, a removed sink never receives a packet until it is added again. */
  lemma RemovedNeverReceives(t: Tables, ops: seq<Op>, i: nat, k: nat, s: Sink)
    requires k < |ops| && Gone(ops, i, k, s)
    ensures Receiver(t, ops, k) != Some(s)
  {
    GoneUnknown(t, ops, i, k, s);
    if ops[k].Receive? { RouteKnown(After(t, ops[..k]), ops[k].packet); }
  }

  lemma BoundSize(m: map<Ssrc, Sink>, ssrc: Ssrc, sink: Sink)
    ensures |Bound(m, ssrc, sink)| <= if |m| >= MAX_SSRC_BINDINGS then |m| else MAX_SSRC_BINDINGS
  {
    if |m| < MAX_SSRC_BINDINGS {
      var n := m[ssrc := sink];
      assert n.Keys == m.Keys + {ssrc};
      assert |n| == |n.Keys| && |m| == |m.Keys|;
    }
  }

  /** Learned bindings never grow the SSRC table past 1000: in any interleaving of operations a packet leaves
      it at most as large as it was, or within 1000. */
  lemma LearnedBindingsBounded(t: Tables, ops: seq<Op>, k: nat)
    requires k < |ops| && ops[k].Receive?
    ensures var before, after := |After(t, ops[..k]).sinkBySsrc|, |After(t, ops[..k + 1]).sinkBySsrc|;
            after <= before || after <= MAX_SSRC_BINDINGS
  {
    var u, p := After(t, ops[..k]), ops[k].packet;
    assert ops[..k + 1][..k] == ops[..k];
    if Route(u, p).Some? { BoundSize(u.sinkBySsrc, p.ssrc, Route(u, p).value); }
  }

  /** How many SSRCs were signalled. */
  ghost function Signalled(ops: seq<Op>): nat {
    if ops == [] then 0
    else Signalled(ops[..|ops| - 1]) + if ops[|ops| - 1].Add? then |ops[|ops| - 1].criteria.ssrcs| else 0
  }

  /** Over every run the table holds at most 1000 entries more than were signalled. */
  lemma {:induction false} BindingsBounded(useMid: bool, ops: seq<Op>)
    ensures |After(Fresh(useMid), ops).sinkBySsrc| <= MAX_SSRC_BINDINGS + Signalled(ops)
  {
    if ops != [] {
      var k := |ops| - 1;
      var t := Fresh(useMid);
      BindingsBounded(useMid, ops[..k]);
      var m := After(t, ops[..k]).sinkBySsrc;
      assert ops[..k + 1] == ops;
      match ops[k] {
        case Receive(_) => LearnedBindingsBounded(t, ops, k);
        case Add(c, s) => AddedSize(m, c.ssrcs, s);
        case Remove(s) => DroppedSize(m, s);
      }
    }
  }

  lemma AddedSize(m: map<Ssrc, Sink>, ssrcs: set<Ssrc>, sink: Sink)
    ensures |(map s | s in ssrcs :: sink) + m| <= |m| + |ssrcs|
  {
    var n := (map s | s in ssrcs :: sink) + m;
    assert n.Keys == ssrcs + m.Keys;
    assert |n| == |n.Keys| && |m| == |m.Keys|;
  }

  lemma DroppedSize(m: map<Ssrc, Sink>, sink: Sink)
    ensures |DropSink(m, sink)| <= |m|
  {
    var n := DropSink(m, sink);
    assert n.Keys <= m.Keys;
    Smaller(n.Keys, m.Keys);
    assert |n| == |n.Keys| && |m| == |m.Keys|;
  }

  lemma Smaller(a: set<Ssrc>, b: set<Ssrc>)
    requires a <= b
    ensures |a| <= |b|
  {
    assert b == a + (b - a);
  }

  /** The stream is latched to a MID that leads to the sink. */
  ghost predicate Latched(t: Tables, ssrc: Ssrc, mid: string, sink: Sink) {
    t.useMid && ssrc in t.midBySsrc && t.midBySsrc[ssrc] == mid && mid in t.sinkByMid && t.sinkByMid[mid] == sink
  }

  /** The operation does not remove the sink and shows no other known MID on the stream. */
  ghost predicate LeavesLatched(t: Tables, op: Op, ssrc: Ssrc, mid: string, sink: Sink) {
    && op != Remove(sink)
    && (op.Receive? && op.packet.ssrc == ssrc && op.packet.midExt.Some? ==>
          op.packet.midExt.value == mid || op.packet.midExt.value !in t.knownMids)
  }

  lemma StepLatched(t: Tables, op: Op, ssrc: Ssrc, mid: string, sink: Sink)
    requires Latched(t, ssrc, mid, sink) && LeavesLatched(t, op, ssrc, mid, sink)
    ensures Latched(Step(t, op), ssrc, mid, sink)
  {
  }

  lemma {:induction false} RunLatched(t: Tables, ops: seq<Op>, ssrc: Ssrc, mid: string, sink: Sink, k: nat)
    requires Latched(t, ssrc, mid, sink) && k <= |ops|
    requires forall i :: 0 <= i < k ==> LeavesLatched(After(t, ops[..i]), ops[i], ssrc, mid, sink)
    ensures Latched(After(t, ops[..k]), ssrc, mid, sink)
  {
    if k > 0 {
      RunLatched(t, ops, ssrc, mid, sink, k - 1);
      assert ops[..k][..k - 1] == ops[..k - 1];
      StepLatched(After(t, ops[..k - 1]), ops[k - 1], ssrc, mid, sink);
    }
  }

  /** With MIDs enabled, once a packet of a stream has been routed by a bare MID, the stream's
      packets without a MID keep reaching that sink, over every run that neither removes the sink
      nor shows another known MID on the stream. */
  lemma BareMidSticks(t: Tables, first: Packet, ops: seq<Op>, k: nat, mid: string)
    requires t.useMid && !UnknownMid(t, first) && MidOf(t, first) == Some(mid) && mid in t.sinkByMid
    requires k < |ops| && ops[k].Receive? && ops[k].packet.ssrc == first.ssrc && ops[k].packet.midExt.None?
    requires var u := AfterPacket(t, first);
             forall i :: 0 <= i < k ==> LeavesLatched(After(u, ops[..i]), ops[i], first.ssrc, mid, t.sinkByMid[mid])
    ensures Route(t, first) == Some(t.sinkByMid[mid])
    ensures Receiver(AfterPacket(t, first), ops, k) == Route(t, first)
  {
    RunLatched(AfterPacket(t, first), ops, first.ssrc, mid, t.sinkByMid[mid], k);
  }

  /** A packet that teaches nothing else about its stream than this RSID: it is dropped for its MID, or shows no
      other RSID. */
  ghost predicate KeepsRsid(t: Tables, p: Packet, rsid: string) {
    UnknownMid(t, p) || PacketRsid(p).None? || PacketRsid(p).value == rsid
  }

  /** The stream is latched to a MID and an RSID that together lead to the sink. */
  ghost predicate PairLatched(t: Tables, ssrc: Ssrc, mid: string, rsid: string, sink: Sink) {
    && Find(t.midBySsrc, ssrc) == Some(mid) && Find(t.rsidBySsrc, ssrc) == Some(rsid)
    && Find(t.sinkByMidAndRsid, (mid, rsid)) == Some(sink)
  }

  /** The operation does not remove the sink and shows no other known MID and no other RSID on the stream. */
  ghost predicate LeavesPair(t: Tables, op: Op, ssrc: Ssrc, mid: string, rsid: string, sink: Sink) {
    && op != Remove(sink)
    && (op.Receive? && op.packet.ssrc == ssrc ==>
          && (PacketMid(t, op.packet).Some? ==>
                PacketMid(t, op.packet).value == mid || PacketMid(t, op.packet).value !in t.knownMids)
          && KeepsRsid(t, op.packet, rsid))
  }

  lemma StepPairLatched(t: Tables, op: Op, ssrc: Ssrc, mid: string, rsid: string, sink: Sink)
    requires PairLatched(t, ssrc, mid, rsid, sink) && LeavesPair(t, op, ssrc, mid, rsid, sink)
    ensures PairLatched(Step(t, op), ssrc, mid, rsid, sink)
  {
  }

  lemma {:induction false} RunPairLatched(t: Tables, ops: seq<Op>, ssrc: Ssrc, mid: string, rsid: string, sink: Sink,
                                          k: nat)
    requires PairLatched(t, ssrc, mid, rsid, sink) && k <= |ops|
    requires forall i :: 0 <= i < k ==> LeavesPair(After(t, ops[..i]), ops[i], ssrc, mid, rsid, sink)
    ensures PairLatched(After(t, ops[..k]), ssrc, mid, rsid, sink)
  {
    if k > 0 {
      RunPairLatched(t, ops, ssrc, mid, rsid, sink, k - 1);
      assert ops[..k][..k - 1] == ops[..k - 1];
      StepPairLatched(After(t, ops[..k - 1]), ops[k - 1], ssrc, mid, rsid, sink);
    }
  }

  /** A stream latched to a pair is routed by it, as long as its packets do not say otherwise. */
  lemma PairRoutes(t: Tables, p: Packet, mid: string, rsid: string, sink: Sink)
    requires Shape(t) && PairLatched(t, p.ssrc, mid, rsid, sink)
    requires PacketMid(t, p).None? || PacketMid(t, p).value == mid
    requires PacketRsid(p).None? || PacketRsid(p).value == rsid
    ensures Route(t, p) == Some(sink)
  {
    assert (mid, rsid).0 in t.knownMids;
  }

  /** Once a packet of a stream has been routed by a MID together with an RSID, shown or learned, the stream's
      packets keep reaching that sink, also without a MID or an RSID, over every run that neither removes the sink
      nor shows another known MID or another RSID on the stream. */
  lemma PairSticks(t: Tables, first: Packet, ops: seq<Op>, k: nat, mid: string, rsid: string, sink: Sink)
    requires Shape(t) && !UnknownMid(t, first) && MidOf(t, first) == Some(mid) && RsidOf(t, first) == Some(rsid)
    requires Find(t.sinkByMidAndRsid, (mid, rsid)) == Some(sink)
    requires k < |ops| && ops[k].Receive? && ops[k].packet.ssrc == first.ssrc
    requires ops[k].packet.midExt.None? || ops[k].packet.midExt.value == mid
    requires PacketRsid(ops[k].packet).None? || PacketRsid(ops[k].packet).value == rsid
    requires var u := AfterPacket(t, first);
             forall i :: 0 <= i < k ==> LeavesPair(After(u, ops[..i]), ops[i], first.ssrc, mid, rsid, sink)
    ensures Route(t, first) == Some(sink) && Receiver(AfterPacket(t, first), ops, k) == Some(sink)
  {
    StepShape(t, Receive(first));
    ShapeKept(AfterPacket(t, first), ops[..k]);
    assert (mid, rsid).0 !in t.sinkByMid;
    RunPairLatched(AfterPacket(t, first), ops, first.ssrc, mid, rsid, sink, k);
    PairRoutes(After(AfterPacket(t, first), ops[..k]), ops[k].packet, mid, rsid, sink);
  }

  /** The stream has no MID and is latched to an RSID that leads to the sink. */
  ghost predicate RsidLatched(t: Tables, ssrc: Ssrc, rsid: string, sink: Sink) {
    && Find(t.midBySsrc, ssrc).None? && Find(t.rsidBySsrc, ssrc) == Some(rsid)
    && Find(t.sinkByRsid, rsid) == Some(sink)
  }

  /** The operation does not remove the sink and shows no known MID and no other RSID on the stream. */
  ghost predicate LeavesRsid(t: Tables, op: Op, ssrc: Ssrc, rsid: string, sink: Sink) {
    && op != Remove(sink)
    && (op.Receive? && op.packet.ssrc == ssrc ==>
          && (PacketMid(t, op.packet).Some? ==> PacketMid(t, op.packet).value !in t.knownMids)
          && KeepsRsid(t, op.packet, rsid))
  }

  lemma StepRsidLatched(t: Tables, op: Op, ssrc: Ssrc, rsid: string, sink: Sink)
    requires RsidLatched(t, ssrc, rsid, sink) && LeavesRsid(t, op, ssrc, rsid, sink)
    ensures RsidLatched(Step(t, op), ssrc, rsid, sink)
  {
  }

  lemma {:induction false} RunRsidLatched(t: Tables, ops: seq<Op>, ssrc: Ssrc, rsid: string, sink: Sink, k: nat)
    requires RsidLatched(t, ssrc, rsid, sink) && k <= |ops|
    requires forall i :: 0 <= i < k ==> LeavesRsid(After(t, ops[..i]), ops[i], ssrc, rsid, sink)
    ensures RsidLatched(After(t, ops[..k]), ssrc, rsid, sink)
  {
    if k > 0 {
      RunRsidLatched(t, ops, ssrc, rsid, sink, k - 1);
      assert ops[..k][..k - 1] == ops[..k - 1];
      StepRsidLatched(After(t, ops[..k - 1]), ops[k - 1], ssrc, rsid, sink);
    }
  }

  /** The same for a stream without a MID that has been routed by its RSID alone. */
  lemma RsidSticks(t: Tables, first: Packet, ops: seq<Op>, k: nat, rsid: string, sink: Sink)
    requires !UnknownMid(t, first) && MidOf(t, first).None? && RsidOf(t, first) == Some(rsid)
    requires Find(t.sinkByRsid, rsid) == Some(sink)
    requires k < |ops| && ops[k].Receive? && ops[k].packet.ssrc == first.ssrc && ops[k].packet.midExt.None?
    requires PacketRsid(ops[k].packet).None? || PacketRsid(ops[k].packet).value == rsid
    requires var u := AfterPacket(t, first);
             forall i :: 0 <= i < k ==> LeavesRsid(After(u, ops[..i]), ops[i], first.ssrc, rsid, sink)
    ensures Route(t, first) == Some(sink) && Receiver(AfterPacket(t, first), ops, k) == Some(sink)
  {
    RunRsidLatched(AfterPacket(t, first), ops, first.ssrc, rsid, sink, k);
  }

  /** The stream has neither a MID nor an RSID and is bound to the sink. */
  ghost predicate BoundTo(t: Tables, ssrc: Ssrc, sink: Sink) {
    Find(t.midBySsrc, ssrc).None? && Find(t.rsidBySsrc, ssrc).None? && Find(t.sinkBySsrc, ssrc) == Some(sink)
  }

  /** The operation does not remove the sink and shows no known MID and no RSID on the stream. */
  ghost predicate LeavesBound(t: Tables, op: Op, ssrc: Ssrc, sink: Sink) {
    && op != Remove(sink)
    && (op.Receive? && op.packet.ssrc == ssrc ==>
          UnknownMid(t, op.packet) || (PacketMid(t, op.packet).None? && PacketRsid(op.packet).None?))
  }

  lemma StepBound(t: Tables, op: Op, ssrc: Ssrc, sink: Sink)
    requires BoundTo(t, ssrc, sink) && LeavesBound(t, op, ssrc, sink)
    ensures BoundTo(Step(t, op), ssrc, sink)
  {
  }

  lemma {:induction false} RunBound(t: Tables, ops: seq<Op>, ssrc: Ssrc, sink: Sink, k: nat)
    requires BoundTo(t, ssrc, sink) && k <= |ops|
    requires forall i :: 0 <= i < k ==> LeavesBound(After(t, ops[..i]), ops[i], ssrc, sink)
    ensures BoundTo(After(t, ops[..k]), ssrc, sink)
  {
    if k > 0 {
      RunBound(t, ops, ssrc, sink, k - 1);
      assert ops[..k][..k - 1] == ops[..k - 1];
      StepBound(After(t, ops[..k - 1]), ops[k - 1], ssrc, sink);
    }
  }

  /** Once a packet of a stream without MID and RSID has reached a sink, by its SSRC or its payload type, and there
      was room to remember this, the stream keeps reaching that sink whatever its payload types, over every run that
      neither removes the sink nor shows a known MID or an RSID on the stream. */
  lemma BindingSticks(t: Tables, first: Packet, ops: seq<Op>, k: nat, sink: Sink)
    requires !UnknownMid(t, first) && MidOf(t, first).None? && RsidOf(t, first).None? && Route(t, first) == Some(sink)
    requires first.ssrc in t.sinkBySsrc || |t.sinkBySsrc| < MAX_SSRC_BINDINGS
    requires k < |ops| && ops[k].Receive? && ops[k].packet.ssrc == first.ssrc
    requires ops[k].packet.midExt.None? && PacketRsid(ops[k].packet).None?
    requires var u := AfterPacket(t, first);
             forall i :: 0 <= i < k ==> LeavesBound(After(u, ops[..i]), ops[i], first.ssrc, sink)
    ensures Receiver(AfterPacket(t, first), ops, k) == Some(sink)
  {
    RunBound(AfterPacket(t, first), ops, first.ssrc, sink, k);
  }

  /** Neither a MID nor a registered RSID identifies the packet's stream. */
  ghost predicate Unidentified(t: Tables, p: Packet) {
    && PacketMid(t, p).None? && Find(t.midBySsrc, p.ssrc).None?
    && (RsidOf(t, p).Some? ==> RsidOf(t, p).value !in t.sinkByRsid)
  }

  /** A sink that is accepted receives the packets that show its MID, or its MID together with its RSID; */
  lemma AddedByMid(t: Tables, c: Criteria, sink: Sink, p: Packet)
    requires Shape(t) && !Conflicts(t, c) && t.useMid && c.mid != "" && p.midExt == Some(c.mid)
    requires c.rsid == "" || RsidOf(t, p) == Some(c.rsid)
    ensures Route(Step(t, Add(c, sink)), p) == Some(sink)
  {
    var u := Added(t, c, sink);
    if c.rsid != "" { assert (c.mid, c.rsid) in u.sinkByMidAndRsid && (c.mid, c.rsid).0 in u.knownMids; }
  }

  /** those of streams without a MID that show its RSID, unless another sink had that RSID before; */
  lemma AddedByRsid(t: Tables, c: Criteria, sink: Sink, p: Packet)
    requires !Conflicts(t, c) && c.mid == "" && c.rsid != "" && c.rsid !in t.sinkByRsid
    requires MidOf(t, p).None? && RsidOf(t, p) == Some(c.rsid)
    ensures Route(Step(t, Add(c, sink)), p) == Some(sink)
  {
  }

  /** and, of streams that nothing else identifies, those with one of its SSRCs, */
  lemma AddedBySsrc(t: Tables, c: Criteria, sink: Sink, p: Packet)
    requires !Conflicts(t, c) && Unidentified(Added(t, c, sink), p) && p.ssrc in c.ssrcs
    ensures Route(Step(t, Add(c, sink)), p) == Some(sink)
  {
  }

  /** and those with a payload type that only it has. */
  lemma AddedByPt(t: Tables, c: Criteria, sink: Sink, p: Packet)
    requires !Conflicts(t, c) && Unidentified(Added(t, c, sink), p)
    requires p.ssrc !in Added(t, c, sink).sinkBySsrc && p.payloadType in c.payloadTypes && p.payloadType !in t.sinksByPt
    ensures Route(Step(t, Add(c, sink)), p) == Some(sink)
  {
    assert Added(t, c, sink).sinksByPt[p.payloadType] == [sink];
  }

  /** A payload type that another sink has does not decide. */
  lemma SharedPtDoesNotDecide(t: Tables, c: Criteria, sink: Sink, p: Packet)
    requires !Conflicts(t, c) && Unidentified(Added(t, c, sink), p) && p.ssrc !in Added(t, c, sink).sinkBySsrc
    requires p.payloadType in c.payloadTypes && p.payloadType in t.sinksByPt && t.sinksByPt[p.payloadType] != []
    ensures Route(Step(t, Add(c, sink)), p).None?
  {
    assert |Added(t, c, sink).sinksByPt[p.payloadType]| > 1;
  }

  /** A packet with a MID that nobody registered reaches no sink and teaches nothing. */
  lemma UnknownMidIgnored(t: Tables, p: Packet)
    requires t.useMid && p.midExt.Some? && p.midExt.value !in t.knownMids
    ensures Route(t, p).None? && Step(t, Receive(p)) == t
  {
  }

  /** Removing a sink leaves what reaches another one as it is. */
  lemma OthersKeepReceiving(t: Tables, p: Packet, removed: Sink, sink: Sink)
    requires Shape(t) && Route(t, p) == Some(sink) && sink != removed
    ensures Route(Step(t, Remove(removed)), p) == Some(sink)
  {
    var u := Removed(t, removed);
    if MidOf(t, p).Some? {
      var mid := MidOf(t, p).value;
      if mid !in t.sinkByMid {
        assert (mid, RsidOf(t, p).value) in u.sinkByMidAndRsid && (mid, RsidOf(t, p).value).0 in u.knownMids;
      }
    } else {
      OthersAlone(t.sinksByPt, p.payloadType, removed, sink);
    }
  }

  lemma OthersAlone(m: map<PayloadType, seq<Sink>>, pt: PayloadType, removed: Sink, sink: Sink)
    requires sink != removed
    ensures pt in m && m[pt] == [sink] ==> pt in DropSinks(m, removed) && DropSinks(m, removed)[pt] == [sink]
  {
    if pt in m && m[pt] == [sink] { assert Others([sink], removed) == [sink]; }
  }

  /** A second sink for an RSID alone is accepted, contrary to the interface's description, and is
      never reached by that RSID: the first registration stays. */
  lemma DuplicateRsidAccepted(t: Tables, rsid: string, sink: Sink)
    requires rsid != "" && rsid in t.sinkByRsid
    ensures !Conflicts(t, Criteria("", rsid, {}, {}))
    ensures Added(t, Criteria("", rsid, {}, {}), sink).sinkByRsid == t.sinkByRsid
  {
  }

  /** A sink is refused iff its MID is taken (alone: by any rule; with an RSID: by the pair or the bare
      MID) or one of its SSRCs is. */
  lemma RefusedIff(t: Tables, c: Criteria)
    requires Shape(t)
    ensures Conflicts(t, c) <==>
            (|| (c.mid != "" && c.mid in t.sinkByMid)
             || (c.mid != "" && c.rsid == "" && exists r :: (c.mid, r) in t.sinkByMidAndRsid)
             || (c.mid != "" && c.rsid != "" && (c.mid, c.rsid) in t.sinkByMidAndRsid)
             || c.ssrcs * t.sinkBySsrc.Keys != {})
  {
    var both := c.ssrcs * t.sinkBySsrc.Keys;
    if both != {} {
      var s :| s in both;
      assert s in c.ssrcs && s in t.sinkBySsrc;
    }
    forall s | s in c.ssrcs && s in t.sinkBySsrc ensures both != {} {
      assert s in both;
    }
    forall r | (c.mid, r) in t.sinkByMidAndRsid ensures c.mid in t.knownMids {
      assert (c.mid, r).0 == c.mid;
    }
    if c.mid in t.knownMids && c.mid !in t.sinkByMid {
      var p :| p in t.sinkByMidAndRsid && p.0 == c.mid;
      assert (c.mid, p.1) == p;
    }
  }
}
