/** Frames inside the packet ring: the searches for a frame's first packet, taking a
    frame's packets out, and what frame detection promises about the frames it hands out. */
module FrameRuns {
  import opened Options
  import opened SeqNums
  import opened FrameTypes
  import opened PacketRing

  const MAX_NALUS_PER_PACKET: nat := 10

  /** Result of the search for a frame's first packet. */
  datatype BackSearch = Abort | FrameFrom(start: SeqNum, isKey: bool, width: int, height: int)

  /** Every slot from start to x is taken by a packet with the timestamp of x, and the
      run does not reach round the ring. */
  ghost predicate RunOf(buf: Slots, start: SeqNum, x: SeqNum) {
    && 0 < |buf| <= 32768 && ForwardDiff(start, x) < |buf| && At(buf, x).Some?
    && forall s: SeqNum :: Between(start, x, s) ==>
                             && Cell(buf, s).Some?
                             && Cell(buf, s).value.timestamp == At(buf, x).value.timestamp
  }

  /** Some packet of the run carries a NALU of type t. */
  ghost predicate RunHas(buf: Slots, start: SeqNum, x: SeqNum, t: Nalu)
    decreases ForwardDiff(start, x)
  {
    var e := Cell(buf, start);
    (e.Some? && Carries(e.value, t)) || (start != x && RunHas(buf, Next(start), x, t))
  }

  ghost predicate RunIsKey(buf: Slots, start: SeqNum, x: SeqNum, forced: bool)
  {
    RunHas(buf, start, x, Idr) && (forced ==> RunHas(buf, start, x, Sps) && RunHas(buf, start, x, Pps))
  }

  predicate HasSize(e: Option<Packet>) { e.Some? && e.value.width > 0 && e.value.height > 0 }

  /** Resolution of a key frame: that of its oldest packet with a valid resolution among those
      from which on the run already counts as key; (-1, -1) if there is none. */
  ghost function KeySize(buf: Slots, start: SeqNum, x: SeqNum, forced: bool): (int, int)
    decreases ForwardDiff(start, x)
  {
    var e := Cell(buf, start);
    if RunIsKey(buf, start, x, forced) && HasSize(e) then (e.value.width, e.value.height)
    else if start == x then (-1, -1) else KeySize(buf, Next(start), x, forced)
  }

  /** What the backward search has seen so far. */
  datatype Scan = Scan(sps: bool, pps: bool, idr: bool, isKey: bool, width: int, height: int)

  const NO_SCAN := Scan(false, false, false, false, -1, -1)

  ghost predicate Scanned(buf: Slots, start: SeqNum, x: SeqNum, forced: bool, sc: Scan)
  {
    && sc.sps == RunHas(buf, start, x, Sps)
    && sc.pps == RunHas(buf, start, x, Pps)
    && sc.idr == RunHas(buf, start, x, Idr)
    && sc.isKey == RunIsKey(buf, start, x, forced)
    && (sc.width, sc.height) == KeySize(buf, start, x, forced)
  }

  /** The search has seen everything after start. */
  ghost predicate ScannedBefore(buf: Slots, start: SeqNum, x: SeqNum, forced: bool, sc: Scan)
  {
    if start == x then sc == NO_SCAN else Scanned(buf, Next(start), x, forced, sc)
  }

  /** The packet has been added to what was seen before. */
  ghost predicate ScanAdds(packet: Packet, forced: bool, before: Scan, after: Scan) {
    && after.sps == (before.sps || Carries(packet, Sps))
    && after.pps == (before.pps || Carries(packet, Pps))
    && after.idr == (before.idr || Carries(packet, Idr))
    && after.isKey == (after.idr && (forced ==> after.sps && after.pps))
    && (after.width, after.height) == (if after.isKey && HasSize(Some(packet)) then (packet.width, packet.height)
                                       else (before.width, before.height))
  }

  lemma ScanStep(buf: Slots, start: SeqNum, x: SeqNum, forced: bool, before: Scan, after: Scan)
    requires Cell(buf, start).Some? && ScannedBefore(buf, start, x, forced, before)
    requires ScanAdds(Cell(buf, start).value, forced, before, after)
    ensures Scanned(buf, start, x, forced, after)
  {
  }

  method ScanPacket(packet: Packet, forced: bool, before: Scan) returns (after: Scan)
    requires packet.nalus.Some? && before.isKey == (before.idr && (forced ==> before.sps && before.pps))
    ensures ScanAdds(packet, forced, before, after)
  {
    var hasSps, hasPps, hasIdr := before.sps, before.pps, before.idr;
    var nalus := packet.nalus.value;
    for j := 0 to |nalus|
      invariant hasSps == (before.sps || Sps in nalus[..j])
      invariant hasPps == (before.pps || Pps in nalus[..j])
      invariant hasIdr == (before.idr || Idr in nalus[..j])
    {
      match nalus[j]
      case Sps => hasSps := true;
      case Pps => hasPps := true;
      case Idr => hasIdr := true;
      case OtherNalu =>
    }
    after := before.(sps := hasSps, pps := hasPps, idr := hasIdr);
    if (forced && hasIdr && hasSps && hasPps) || (!forced && hasIdr) {
      after := after.(isKey := true);
      if packet.width > 0 && packet.height > 0 {
        after := after.(width := packet.width, height := packet.height);
      }
    }
  }

  /** The non-H.264 frame start..x: a marked chain with the first flag only at its start. */
  ghost predicate ChainOf(buf: Slots, start: SeqNum, x: SeqNum)
  {
    At(buf, x).Some? &&
    forall s: SeqNum :: Between(start, x, s) ==>
                          && At(buf, s).Some?
                          && At(buf, s).value.timestamp == At(buf, x).value.timestamp
                          && (s != start ==> !At(buf, s).value.isFirst)
                          && (s != x ==> At(buf, s).value.continuous && !At(buf, s).value.isLast)
  }

  /** An H.264 packet whose header stops the search for its frame. */
  predicate BadHeader(e: Option<Packet>) {
    e.Some? && (e.value.nalus.None? || |e.value.nalus.value| >= MAX_NALUS_PER_PACKET)
  }

  ghost predicate MarkedFrom(before: Slots, buf: Slots, x: SeqNum) {
    && |before| > 0 && At(before, x).Some?
    && buf == before[Slot(x, |before|) := Some(At(before, x).value.(continuous := true))]
  }

  lemma BetweenStep(start: SeqNum, x: SeqNum, s: SeqNum)
    requires ForwardDiff(start, x) < 65535
    ensures Between(Prev(start), x, s) <==> s == Prev(start) || Between(start, x, s)
  {
  }

  lemma RunStep(buf: Slots, start: SeqNum, x: SeqNum)
    requires RunOf(buf, start, x) && ForwardDiff(start, x) + 1 < |buf|
    requires Cell(buf, Prev(start)).Some?
    requires Cell(buf, Prev(start)).value.timestamp == At(buf, x).value.timestamp
    ensures RunOf(buf, Prev(start), x)
  {
    forall s: SeqNum { BetweenStep(start, x, s); }
  }

  /** In a settled ring the chain can be followed back past any packet without the first flag. */
  lemma ChainStep(before: Slots, buf: Slots, start: SeqNum, x: SeqNum)
    requires MarkedFrom(before, buf, x) && SettledExcept(before, x) && Potential(before, x)
    requires ChainOf(buf, start, x) && !At(buf, start).value.isFirst && ForwardDiff(start, x) < 65535
    ensures ChainOf(buf, Prev(start), x)
  {
    assert Between(start, x, start);
    assert Sound(before, start) && Sound(before, Prev(start));
    assert At(buf, Prev(start)) == At(before, Prev(start));
    forall s: SeqNum { BetweenStep(start, x, s); }
  }

  ghost function Typed(p: Packet, search: BackSearch): Packet
    requires search.FrameFrom?
  {
    if !search.isKey then p.(frameType := DeltaFrame)
    else if search.width > 0 && search.height > 0
    then p.(frameType := KeyFrame, width := search.width, height := search.height)
    else p.(frameType := KeyFrame)
  }

  /** What is still recorded missing once the given frames have been handed out. */
  ghost function MissingAfter(missing: set<SeqNum>, frames: seq<seq<Packet>>): set<SeqNum>
    requires NonEmpty(frames)
  {
    if frames == [] then missing
    else
      var rest := MissingAfter(missing, frames[..|frames| - 1]);
      var last := frames[|frames| - 1];
      set m | m in rest && AheadOf(m, last[|last| - 1].seqNum)
  }

  /** Every frame is marked key exactly when its packets make it one. */
  ghost predicate KeysMarked(frames: seq<seq<Packet>>, forced: bool) {
    forall i :: 0 <= i < |frames| ==>
                  |frames[i]| > 0 && (frames[i][0].frameType.KeyFrame? <==> KeyRun(frames[i], forced))
  }

  /** No delta frame is handed out while a packet at or before its start is recorded missing. */
  ghost predicate DeltasGapFree(frames: seq<seq<Packet>>, missing: set<SeqNum>)
    requires NonEmpty(frames)
  {
    forall i, m :: (&& 0 <= i < |frames| && !frames[i][0].frameType.KeyFrame?
                    && m in MissingAfter(missing, frames[..i])) ==> AheadOf(m, frames[i][0].seqNum)
  }

  ghost predicate AllFrames(frames: seq<seq<Packet>>) { forall f :: f in frames ==> IsFrame(f) }

  lemma {:induction false} RunHasFrame(buf: Slots, start: SeqNum, x: SeqNum, f: seq<Packet>, t: Nalu)
    requires |f| == ForwardDiff(start, x) + 1
    requires forall k :: 0 <= k < |f| ==> && Nth(buf, start, k).Some?
                                          && f[k].nalus == Nth(buf, start, k).value.nalus
    ensures RunHas(buf, start, x, t) <==> FrameHas(f, t)
    decreases |f|
  {
    assert Nth(buf, start, 0) == Cell(buf, start);
    if start != x {
      var tail := f[1..];
      forall k | 0 <= k < |tail|
        ensures Nth(buf, Next(start), k).Some? && tail[k].nalus == Nth(buf, Next(start), k).value.nalus
      {
        PlusShift(start, k);
        assert Nth(buf, Next(start), k) == Nth(buf, start, k + 1);
      }
      RunHasFrame(buf, Next(start), x, tail, t);
      if FrameHas(f, t) && !Carries(f[0], t) {
        var k :| 0 <= k < |f| && Carries(f[k], t);
        assert Carries(tail[k - 1], t);
      }
    }
  }

  /** The packets of a run on consecutive numbers form a frame. */
  lemma FrameOfRun(buf: Slots, start: SeqNum, x: SeqNum, f: seq<Packet>)
    requires RunOf(buf, start, x) && |f| == ForwardDiff(start, x) + 1 && FrameFromRun(buf, start, |f|, f)
    requires forall s: SeqNum :: Between(start, x, s) ==> At(buf, s).Some?
    ensures IsFrame(f) && f[0].seqNum == start && f[|f| - 1].seqNum == x
  {
    forall k | 0 <= k < |f|
      ensures f[k].seqNum == Plus(start, k) && f[k].timestamp == At(buf, x).value.timestamp
    {
      assert Between(start, x, Plus(start, k));
      assert At(buf, Plus(start, k)).Some?;
    }
  }

  ghost predicate NonEmpty(frames: seq<seq<Packet>>) { forall f :: f in frames ==> |f| > 0 }

  /** Everything frame detection promises about what it hands out and what it leaves. */
  ghost predicate Handed(h: bool, buf0: Slots, missing0: set<SeqNum>, forced: bool,
                         buf: Slots, missing: set<SeqNum>, found: seq<Packet>, frames: seq<seq<Packet>>)
  {
    && found == Flatten(frames) && NonEmpty(frames)
    && Conserved(buf0, buf, found) && missing <= missing0
    && (!h || SpanOk(buf0) ==> AllFrames(frames) && missing == MissingAfter(missing0, frames))
    && (h ==> KeysMarked(frames, forced))
    && (h && SpanOk(buf0) ==> DeltasGapFree(frames, missing0) && AllWhole(buf, frames))
  }

  /** No packet of the frame's timestamp is left in the slot before the frame. */
  ghost predicate WholeRun(buf: Slots, f: seq<Packet>) {
    |f| > 0 && var e := Cell(buf, Prev(f[0].seqNum)); e.Some? ==> e.value.timestamp != f[0].timestamp
  }

  ghost predicate AllWhole(buf: Slots, frames: seq<seq<Packet>>) { forall f :: f in frames ==> WholeRun(buf, f) }

  lemma WholeKept(buf: Slots, rest: Slots, found: seq<Packet>, frames: seq<seq<Packet>>)
    requires Conserved(buf, rest, found) && AllWhole(buf, frames)
    ensures AllWhole(rest, frames)
  {
    forall f: seq<Packet> | f in frames ensures WholeRun(rest, f) {
      assert WholeRun(buf, f);
      var e := Cell(rest, Prev(f[0].seqNum));
      if e.Some? { assert At(rest, e.value.seqNum) == e; }
    }
  }

  /** What the frame just handed out adds. */
  ghost predicate HandedOne(h: bool, buf: Slots, missing: set<SeqNum>, forced: bool,
                            rest: Slots, after: set<SeqNum>, f: seq<Packet>, x: SeqNum)
  {
    && |f| > 0 && Conserved(buf, rest, f)
    && after == (set m | m in missing && AheadOf(m, x))
    && (!h || SpanOk(buf) ==> IsFrame(f) && f[|f| - 1].seqNum == x)
    && (h ==> (f[0].frameType.KeyFrame? <==> KeyRun(f, forced)))
    && (h && SpanOk(buf) && !f[0].frameType.KeyFrame? ==> forall m :: m in missing ==> AheadOf(m, f[0].seqNum))
    && (h && SpanOk(buf) ==> WholeRun(rest, f))
  }

  lemma HandedMore(h: bool, buf0: Slots, missing0: set<SeqNum>, forced: bool,
                   buf: Slots, missing: set<SeqNum>, found: seq<Packet>, frames: seq<seq<Packet>>,
                   rest: Slots, after: set<SeqNum>, f: seq<Packet>, x: SeqNum)
    requires Handed(h, buf0, missing0, forced, buf, missing, found, frames)
    requires HandedOne(h, buf, missing, forced, rest, after, f, x)
    ensures Handed(h, buf0, missing0, forced, rest, after, found + f, frames + [f])
  {
    ConservedKeeps(buf0, buf, found, h);
    ConservedMore(buf0, buf, rest, found, f);
    FramesMore(frames, missing0, f);
    if h && SpanOk(buf0) {
      DeltasMore(frames, missing0, f);
      WholeKept(buf, rest, f, frames);
    }
  }

  lemma HandedUnmark(h: bool, before: Slots, buf: Slots, missing: set<SeqNum>, forced: bool,
                     rest: Slots, after: set<SeqNum>, f: seq<Packet>, x: SeqNum)
    requires HandedOne(h, buf, missing, forced, rest, after, f, x) && Conserved(before, buf, [])
    ensures HandedOne(h, before, missing, forced, rest, after, f, x)
  {
    ConservedKeeps(before, buf, [], h);
    ConservedMore(before, buf, rest, [], f);
    assert [] + f == f;
  }

  lemma FramesMore(frames: seq<seq<Packet>>, missing0: set<SeqNum>, f: seq<Packet>)
    requires NonEmpty(frames) && |f| > 0
    ensures NonEmpty(frames + [f]) && Flatten(frames + [f]) == Flatten(frames) + f
    ensures AllFrames(frames) && IsFrame(f) ==> AllFrames(frames + [f])
    ensures MissingAfter(missing0, frames + [f]) ==
            set m | m in MissingAfter(missing0, frames) && AheadOf(m, f[|f| - 1].seqNum)
  {
    var more := frames + [f];
    assert more[..|frames|] == frames;
    assert forall g :: g in more ==> g in frames || g == f;
  }

  lemma DeltasMore(frames: seq<seq<Packet>>, missing0: set<SeqNum>, f: seq<Packet>)
    requires NonEmpty(frames) && |f| > 0 && DeltasGapFree(frames, missing0)
    requires !f[0].frameType.KeyFrame? ==>
               forall m :: m in MissingAfter(missing0, frames) ==> AheadOf(m, f[0].seqNum)
    ensures DeltasGapFree(frames + [f], missing0)
  {
    var more := frames + [f];
    assert forall g :: g in more ==> g in frames || g == f;
    assert forall i :: 0 <= i <= |frames| ==> more[..i] == frames[..i];
    assert frames[..|frames|] == frames;
  }

  /** Finds the first packet of the frame that ends at seqNum, for codecs with a first-packet
      flag: the search runs along marked packets and never meets an empty slot. */
  method SearchFirstPacket(buf: Slots, seqNum: SeqNum, ghost before: Slots) returns (start: SeqNum)
    requires Ring(before) && MarkedFrom(before, buf, seqNum)
    requires SettledExcept(before, seqNum) && Potential(before, seqNum)
    ensures ForwardDiff(start, seqNum) < |buf|
    ensures ChainOf(buf, start, seqNum) && At(buf, start).value.isFirst
  {
    RingSizeOf(before);
    start := seqNum;
    var startIndex := Slot(seqNum, |buf|);
    var tested := 0;
    while true
      invariant tested == ForwardDiff(start, seqNum) < |buf| && startIndex == Slot(start, |buf|)
      invariant ChainOf(buf, start, seqNum)
      decreases |buf| - tested
    {
      tested := tested + 1;
      assert Between(start, seqNum, start);
      if buf[startIndex].value.isFirst { return; }
      if tested == |buf| {
        WalkMeetsFirst(before, seqNum, start);
        return;
      }
      ChainStep(before, buf, start, seqNum);
      SlotPrev(start, |buf|);
      startIndex := if startIndex > 0 then startIndex - 1 else |buf| - 1;
      start := Prev(start);
    }
  }

  /** The run cannot be continued backward. */
  ghost predicate RunEndsAt(buf: Slots, start: SeqNum, x: SeqNum) {
    RunOf(buf, start, x) && (ForwardDiff(start, x) + 1 == |buf| || !RunOf(buf, Prev(start), x))
  }

  lemma RunStops(buf: Slots, start: SeqNum, x: SeqNum)
    requires RunOf(buf, start, x)
    requires || Cell(buf, Prev(start)).None?
             || Cell(buf, Prev(start)).value.timestamp != At(buf, x).value.timestamp
    ensures RunEndsAt(buf, start, x)
  {
    assert Between(Prev(start), x, Prev(start));
  }

  /** Every run of the timestamp that ends at x lies inside the one that cannot be continued. */
  lemma RunInside(buf: Slots, start: SeqNum, x: SeqNum, other: SeqNum)
    requires RunEndsAt(buf, start, x) && RunOf(buf, other, x)
    ensures Between(start, x, other) && ForwardDiff(other, x) <= ForwardDiff(start, x)
  {
    if ForwardDiff(other, x) > ForwardDiff(start, x) {
      forall s: SeqNum | Between(Prev(start), x, s) ensures Between(other, x, s) { }
      assert RunOf(buf, Prev(start), x);
      assert false;
    }
  }

  /** A packet of the run that ends at x has a bad header. */
  ghost predicate RunBad(buf: Slots, x: SeqNum) {
    exists start: SeqNum :: RunOf(buf, start, x) && BadHeader(Cell(buf, start))
  }

  /** No packet from start to x has a bad header. */
  ghost predicate HeadersGood(buf: Slots, start: SeqNum, x: SeqNum)
  {
    forall s: SeqNum :: Between(start, x, s) ==> !BadHeader(Cell(buf, s))
  }

  lemma HeadersGoodStep(buf: Slots, start: SeqNum, x: SeqNum)
    requires (start != x ==> HeadersGood(buf, Next(start), x)) && !BadHeader(Cell(buf, start))
    ensures HeadersGood(buf, start, x)
  {
    forall s: SeqNum | Between(start, x, s) ensures !BadHeader(Cell(buf, s)) {
      if s != start { assert Between(Next(start), x, s); }
    }
  }

  lemma RunGood(buf: Slots, start: SeqNum, x: SeqNum)
    requires RunEndsAt(buf, start, x) && HeadersGood(buf, start, x)
    ensures !RunBad(buf, x)
  {
    forall other: SeqNum | RunOf(buf, other, x) ensures !BadHeader(Cell(buf, other)) {
      RunInside(buf, start, x, other);
    }
  }

  /** The search has seen everything after start, and no bad header. */
  ghost predicate Searching(buf: Slots, start: SeqNum, x: SeqNum, forced: bool, sc: Scan)
  {
    ScannedBefore(buf, start, x, forced, sc) && (start != x ==> HeadersGood(buf, Next(start), x))
  }

  lemma SearchStep(buf: Slots, start: SeqNum, x: SeqNum, forced: bool, before: Scan, after: Scan)
    requires Cell(buf, start).Some? && Searching(buf, start, x, forced, before)
    requires ScanAdds(Cell(buf, start).value, forced, before, after) && !BadHeader(Cell(buf, start))
    ensures Scanned(buf, start, x, forced, after) && HeadersGood(buf, start, x)
    ensures Prev(start) != x ==> Searching(buf, Prev(start), x, forced, after)
  {
    ScanStep(buf, start, x, forced, before, after);
    HeadersGoodStep(buf, start, x);
    assert Next(Prev(start)) == start;
  }

  lemma SearchDone(buf: Slots, start: SeqNum, x: SeqNum)
    requires RunOf(buf, start, x) && HeadersGood(buf, start, x)
    requires || ForwardDiff(start, x) + 1 == |buf| || Cell(buf, Prev(start)).None?
             || Cell(buf, Prev(start)).value.timestamp != At(buf, x).value.timestamp
    ensures RunEndsAt(buf, start, x) && !RunBad(buf, x)
  {
    if ForwardDiff(start, x) + 1 != |buf| { RunStops(buf, start, x); }
    RunGood(buf, start, x);
  }

  /** The same search for H.264, whose first flag is not trusted: it takes every packet of the
      timestamp in the preceding slots, and decides whether they make a key frame. */
  method SearchTimestampRun(buf: Slots, seqNum: SeqNum, forced: bool) returns (r: BackSearch)
    requires Ring(buf) && At(buf, seqNum).Some?
    ensures r.FrameFrom? ==> RunEndsAt(buf, r.start, seqNum) && r.isKey == RunIsKey(buf, r.start, seqNum, forced)
    ensures r.FrameFrom? ==> (r.width, r.height) == KeySize(buf, r.start, seqNum, forced)
    ensures r.Abort? <==> RunBad(buf, seqNum)
  {
    RingSizeOf(buf);
    var start := seqNum;
    var startIndex := Slot(seqNum, |buf|);
    var tested := 0;
    var timestamp := buf[startIndex].value.timestamp;
    var scan := NO_SCAN;
    while true
      invariant tested == ForwardDiff(start, seqNum) < |buf| && startIndex == Slot(start, |buf|)
      invariant RunOf(buf, start, seqNum)
      invariant Searching(buf, start, seqNum, forced, scan)
      decreases |buf| - tested
    {
      tested := tested + 1;
      assert Between(start, seqNum, start);
      var packet := buf[startIndex].value;
      if packet.nalus.None? || |packet.nalus.value| >= MAX_NALUS_PER_PACKET {
        assert BadHeader(Cell(buf, start));
        return Abort;
      }
      ghost var before := scan;
      scan := ScanPacket(packet, forced, scan);
      SearchStep(buf, start, seqNum, forced, before, scan);
      if tested == |buf| {
        SearchDone(buf, start, seqNum);
        return FrameFrom(start, scan.isKey, scan.width, scan.height);
      }
      SlotPrev(start, |buf|);
      startIndex := if startIndex > 0 then startIndex - 1 else |buf| - 1;
      if buf[startIndex].None? || buf[startIndex].value.timestamp != timestamp {
        SearchDone(buf, start, seqNum);
        return FrameFrom(start, scan.isKey, scan.width, scan.height);
      }
      RunStep(buf, start, seqNum);
      start := Prev(start);
    }
  }

  /** f is the run of n packets from start with its frame flags set. */
  ghost predicate FrameFromRun(buf: Slots, start: SeqNum, n: nat, f: seq<Packet>)
  {
    |f| <= n && forall k :: 0 <= k < |f| ==>
                              && Nth(buf, start, k).Some?
                              && f[k] == Flagged(Nth(buf, start, k).value, k == 0, k == n - 1)
  }

  function Flagged(p: Packet, first: bool, last: bool): Packet { p.(isFirst := first, isLast := last) }

  /** rest is buf without the first n packets of the run from start. */
  ghost predicate RunTaken(buf: Slots, rest: Slots, start: SeqNum, n: nat)
  {
    && |rest| == |buf|
    && (forall k :: 0 <= k < n ==> Nth(rest, start, k).None?)
    && forall i :: 0 <= i < |buf| ==> rest[i] == buf[i] || (rest[i].None? && InRun(start, n, |buf|, i))
  }

  predicate InRun(start: SeqNum, n: nat, size: nat, i: nat)
    requires size > 0
  {
    exists k :: 0 <= k < n && Slot(Plus(start, k), size) == i
  }

  /** Taking one more packet of a run. */
  lemma TakeOne(buf: Slots, rest: Slots, start: SeqNum, n: nat, k: nat)
    requires Ring(buf) && RunTaken(buf, rest, start, k) && k < n <= |buf|
    ensures Nth(rest, start, k) == Nth(buf, start, k)
    ensures RunTaken(buf, rest[Slot(Plus(start, k), |buf|) := None], start, k + 1)
  {
    RingSizeOf(buf);
    var slot := Slot(Plus(start, k), |buf|);
    if rest[slot] != buf[slot] {
      var j :| 0 <= j < k && Slot(Plus(start, j), |buf|) == slot;
      SlotsDistinct(start, j, k, |buf|);
      assert false;
    }
    var after := rest[slot := None];
    forall j | 0 <= j < k + 1
      ensures Nth(after, start, j).None?
    {
      assert j < k ==> Nth(rest, start, j).None?;
    }
    forall i | 0 <= i < |buf|
      ensures after[i] == buf[i] || (after[i].None? && InRun(start, k + 1, |buf|, i))
    {
      if i != slot && rest[i] != buf[i] {
        var j :| 0 <= j < k && Slot(Plus(start, j), |buf|) == i;
        assert InRun(start, k + 1, |buf|, i);
      }
    }
  }

  /** Setting the frame flags of the n packets from start changes no packet's body. */
  ghost predicate FlagsFree(buf: Slots, start: SeqNum, n: nat)
  {
    forall k :: 0 <= k < n ==>
                  && Nth(buf, start, k).Some?
                  && var p := Nth(buf, start, k).value;
                     Body(p) == Body(Flagged(p, k == 0, k == n - 1))
  }

  /** The packets f have been moved out of buf, leaving rest. */
  ghost predicate Taking(buf: Slots, rest: Slots, start: SeqNum, n: nat, f: seq<Packet>)
  {
    && FrameFromRun(buf, start, n, f) && RunTaken(buf, rest, start, |f|)
    && Conserved(buf, rest, f)
  }

  lemma FrameExtend(buf: Slots, start: SeqNum, n: nat, f: seq<Packet>, p: Packet)
    requires FrameFromRun(buf, start, n, f) && |f| < n
    requires Nth(buf, start, |f|) == Some(p)
    ensures FrameFromRun(buf, start, n, f + [Flagged(p, |f| == 0, |f| == n - 1)])
  {
  }

  lemma TakingStep(buf: Slots, rest: Slots, start: SeqNum, n: nat, f: seq<Packet>)
    requires Ring(buf) && |f| < n <= |buf| && FlagsFree(buf, start, n) && Taking(buf, rest, start, n, f)
    ensures var slot := Slot(Plus(start, |f|), |buf|);
            && rest[slot].Some?
            && Taking(buf, rest[slot := None], start, n,
                      f + [Flagged(rest[slot].value, |f| == 0, |f| == n - 1)])
  {
    var slot := Slot(Plus(start, |f|), |buf|);
    TakeOne(buf, rest, start, n, |f|);
    FrameExtend(buf, start, n, f, rest[slot].value);
    var p := Flagged(rest[slot].value, |f| == 0, |f| == n - 1);
    ConservedTake(rest, slot, p);
    ConservedMore(buf, rest, rest[slot := None], f, [p]);
  }

  lemma FlagsFreeChain(buf: Slots, start: SeqNum, x: SeqNum)
    requires ChainOf(buf, start, x) && ForwardDiff(start, x) < 32768
    requires At(buf, start).Some? && At(buf, start).value.isFirst && At(buf, x).value.isLast
    ensures RunOf(buf, start, x) || |buf| <= ForwardDiff(start, x) || |buf| > 32768
    ensures FlagsFree(buf, start, ForwardDiff(start, x) + 1)
  {
    var n := ForwardDiff(start, x) + 1;
    forall k | 0 <= k < n
      ensures && Nth(buf, start, k).Some?
              && var p := Nth(buf, start, k).value; Flagged(p, k == 0, k == n - 1) == p
    {
      var s := Plus(start, k);
      assert Between(start, x, s) && At(buf, s) == Nth(buf, start, k);
      assert (s == start <==> k == 0) && (s == x <==> k == n - 1);
    }
  }

  /** Taking a finished chain out of the marked ring leaves the ring settled. */
  lemma ChainTaken(before: Slots, buf: Slots, start: SeqNum, x: SeqNum, rest: Slots, f: seq<Packet>)
    requires Ring(before) && MarkedFrom(before, buf, x) && SettledExcept(before, x) && Potential(before, x)
    requires At(before, x).value.isLast && ChainOf(buf, start, x) && ForwardDiff(start, x) < |buf|
    requires |f| == ForwardDiff(start, x) + 1 && RunTaken(buf, rest, start, |f|)
    ensures SettledExcept(rest, Next(x))
  {
    forall s: SeqNum
      ensures At(rest, s) == if Between(start, x, s) then None else At(before, s)
    {
      if Between(start, x, s) {
        assert s == Plus(start, ForwardDiff(start, s));
        assert Nth(rest, start, ForwardDiff(start, s)).None?;
      } else if Cell(rest, s) != Cell(buf, s) {
        var k :| 0 <= k < |f| && Slot(Plus(start, k), |buf|) == Slot(s, |buf|);
        assert Between(start, x, Plus(start, k));
        assert At(buf, Plus(start, k)).Some?;
      }
    }
    TakeStep(before, x, start, rest);
  }

  /** The ring after the type of the frame has been set on the first packet of its run. */
  ghost function TypedSlots(buf: Slots, start: SeqNum, search: BackSearch): Slots
    requires Cell(buf, start).Some? && search.FrameFrom?
  {
    buf[Slot(start, |buf|) := Some(Typed(Cell(buf, start).value, search))]
  }

  /** Setting the type of a run's first packet changes nothing else about the run. */
  lemma TypedRun(buf: Slots, start: SeqNum, x: SeqNum, search: BackSearch)
    requires RunOf(buf, start, x) && AllCodec(buf, true) && search.FrameFrom?
    ensures Cell(buf, start).Some?
    ensures var typed := TypedSlots(buf, start, search);
            RunOf(typed, start, x) && FlagsFree(typed, start, ForwardDiff(start, x) + 1)
  {
    assert Between(start, x, start);
    var typed := TypedSlots(buf, start, search);
    forall s: SeqNum | Between(start, x, s)
      ensures Cell(typed, s).Some? && Body(Cell(buf, s).value) == Body(Cell(typed, s).value)
    {
    }
    forall k | 0 <= k < ForwardDiff(start, x) + 1
      ensures Nth(typed, start, k).Some? && Nth(typed, start, k).value.codec.H264?
    {
      assert Between(start, x, Plus(start, k));
    }
  }

  lemma ConservedTyped(buf: Slots, start: SeqNum, x: SeqNum, search: BackSearch)
    requires Ring(buf) && RunOf(buf, start, x) && AllCodec(buf, true) && search.FrameFrom?
    ensures Cell(buf, start).Some?
    ensures var typed := TypedSlots(buf, start, search);
            Conserved(buf, typed, [])
  {
    assert Between(start, x, start);
    ConservedRewrite(buf, Slot(start, |buf|), Typed(Cell(buf, start).value, search));
  }

  /** The run that ends at x makes no key frame, and a packet at or before its start is missing. */
  ghost predicate RunGated(buf: Slots, missing: set<SeqNum>, forced: bool, x: SeqNum) {
    exists start: SeqNum :: && RunEndsAt(buf, start, x) && !RunIsKey(buf, start, x, forced)
                            && exists m :: m in missing && !AheadOf(m, start)
  }

  /** An H.264 frame ending at x is to stay stored. */
  ghost predicate Withholds(buf: Slots, missing: set<SeqNum>, forced: bool, x: SeqNum) {
    RunBad(buf, x) || RunGated(buf, missing, forced, x)
  }

  lemma GatedIff(buf: Slots, missing: set<SeqNum>, forced: bool, start: SeqNum, x: SeqNum)
    requires RunEndsAt(buf, start, x)
    ensures RunGated(buf, missing, forced, x) <==>
            !RunIsKey(buf, start, x, forced) && exists m :: m in missing && !AheadOf(m, start)
  {
    forall other: SeqNum | RunEndsAt(buf, other, x) ensures other == start {
      RunInside(buf, start, x, other);
      RunInside(buf, other, x, start);
    }
  }

  /** A frame taken from a typed run is marked key exactly when its packets make it one, */
  lemma TypedKey(buf: Slots, start: SeqNum, x: SeqNum, search: BackSearch, f: seq<Packet>, forced: bool)
    requires RunOf(buf, start, x)
    requires search.FrameFrom? && Cell(buf, start).Some? && search.isKey == RunIsKey(buf, start, x, forced)
    requires |f| == ForwardDiff(start, x) + 1 && FrameFromRun(TypedSlots(buf, start, search), start, |f|, f)
    ensures f[0].frameType.KeyFrame? == search.isKey == KeyRun(f, forced)
  {
    var typed := TypedSlots(buf, start, search);
    forall k | 0 <= k < |f|
      ensures Nth(buf, start, k).Some? && f[k].nalus == Nth(buf, start, k).value.nalus
    {
      assert Between(start, x, Plus(start, k));
    }
    RunHasFrame(buf, start, x, f, Idr);
    RunHasFrame(buf, start, x, f, Sps);
    RunHasFrame(buf, start, x, f, Pps);
    assert Nth(typed, start, 0) == Cell(typed, start);
  }

  /** and is a proper frame as long as timestamps are not spread too far over the ring. */
  lemma TypedFrame(buf: Slots, start: SeqNum, x: SeqNum, search: BackSearch, f: seq<Packet>)
    requires Ring(buf) && SpanOk(buf) && RunOf(buf, start, x) && search.FrameFrom? && Cell(buf, start).Some?
    requires |f| == ForwardDiff(start, x) + 1 && FrameFromRun(TypedSlots(buf, start, search), start, |f|, f)
    requires RunOf(TypedSlots(buf, start, search), start, x)
    ensures IsFrame(f) && f[0].seqNum == start && f[|f| - 1].seqNum == x
  {
    var typed := TypedSlots(buf, start, search);
    forall s: SeqNum | Between(start, x, s)
      ensures At(typed, s).Some?
    {
      SpanRun(buf, x, start, s);
    }
    FrameOfRun(typed, start, x, f);
  }

  /** A run of a timestamp that is taken out as far as it goes leaves none of its packets before it. */
  lemma WholeTaken(buf: Slots, typed: Slots, rest: Slots, start: SeqNum, x: SeqNum, f: seq<Packet>)
    requires Ring(buf) && RunEndsAt(buf, start, x) && SameRuns(buf, typed)
    requires |f| == ForwardDiff(start, x) + 1 && RunTaken(typed, rest, start, |f|)
    requires f[0].seqNum == start && f[0].timestamp == At(buf, x).value.timestamp
    ensures WholeRun(rest, f)
  {
    RingSizeOf(buf);
    var e := Cell(rest, Prev(start));
    if |f| == |buf| {
      SlotPlus(start, |f| - 1, |buf|);
      SlotPrev(start, |buf|);
      assert Nth(rest, start, |f| - 1) == e;
    } else if e.Some? && e.value.timestamp == f[0].timestamp {
      assert e == Cell(typed, Prev(start));
      assert SameButType(Cell(buf, Prev(start)), e);
      RunStep(buf, start, x);
    }
  }

  lemma H264Handed(buf: Slots, rest: Slots, missing: set<SeqNum>, forced: bool,
                   start: SeqNum, x: SeqNum, search: BackSearch, f: seq<Packet>)
    requires Ring(buf) && RunEndsAt(buf, start, x) && AllCodec(buf, true) && Cell(buf, start).Some?
    requires search.FrameFrom? && search.isKey == RunIsKey(buf, start, x, forced)
    requires |f| == ForwardDiff(start, x) + 1 && Taking(TypedSlots(buf, start, search), rest, start, |f|, f)
    requires search.isKey || forall m :: m in missing ==> AheadOf(m, start)
    ensures HandedOne(true, buf, missing, forced, rest, (set m | m in missing && AheadOf(m, x)), f, x)
  {
    var typed := TypedSlots(buf, start, search);
    ConservedTyped(buf, start, x, search);
    TypedRun(buf, start, x, search);
    TypedKey(buf, start, x, search, f, forced);
    if SpanOk(buf) { TypedWhole(buf, rest, start, x, search, f); }
    ConservedMore(buf, typed, rest, [], f);
    assert [] + f == f;
  }

  lemma TypedWhole(buf: Slots, rest: Slots, start: SeqNum, x: SeqNum, search: BackSearch, f: seq<Packet>)
    requires Ring(buf) && SpanOk(buf) && RunEndsAt(buf, start, x) && Cell(buf, start).Some? && search.FrameFrom?
    requires var typed := TypedSlots(buf, start, search);
             && |f| == ForwardDiff(start, x) + 1 && FrameFromRun(typed, start, |f|, f)
             && RunOf(typed, start, x) && RunTaken(typed, rest, start, |f|)
    ensures IsFrame(f) && f[0].seqNum == start && f[|f| - 1].seqNum == x && WholeRun(rest, f)
  {
    TypedFrame(buf, start, x, search, f);
    TypedKeepsFlags(buf, start, search);
    FrameTime(TypedSlots(buf, start, search), start, x, f);
    assert SameButType(Cell(buf, x), Cell(TypedSlots(buf, start, search), x));
    WholeTaken(buf, TypedSlots(buf, start, search), rest, start, x, f);
  }

  lemma FrameTime(buf: Slots, start: SeqNum, x: SeqNum, f: seq<Packet>)
    requires RunOf(buf, start, x) && |f| == ForwardDiff(start, x) + 1 && FrameFromRun(buf, start, |f|, f)
    ensures f[0].timestamp == At(buf, x).value.timestamp
  {
    assert Between(start, x, start) && Nth(buf, start, 0) == Cell(buf, start);
  }

  // ---- The resolution of a frame -------------------------------------------------

  /** The packet numbered s has a valid resolution, and the run from it on makes a key frame. */
  ghost predicate Sizes(buf: Slots, s: SeqNum, x: SeqNum, forced: bool) {
    HasSize(Cell(buf, s)) && RunIsKey(buf, s, x, forced)
  }

  /** s is the oldest such packet of the run. */
  ghost predicate SizesFirst(buf: Slots, start: SeqNum, x: SeqNum, forced: bool, s: SeqNum) {
    && Between(start, x, s) && Sizes(buf, s, x, forced)
    && forall t: SeqNum :: ForwardDiff(start, t) < ForwardDiff(start, s) ==> !Sizes(buf, t, x, forced)
  }

  ghost predicate SameSize(p: Packet, q: Packet) { p.width == q.width && p.height == q.height }

  /** The search's resolution is that of the oldest packet that gives one, or there is none. */
  lemma {:induction false} KeySizeIs(buf: Slots, start: SeqNum, x: SeqNum, forced: bool) returns (s: SeqNum)
    ensures var (w, h) := KeySize(buf, start, x, forced);
            if SizesFirst(buf, start, x, forced, s)
            then Cell(buf, s).value.width == w > 0 && Cell(buf, s).value.height == h > 0
            else (w, h) == (-1, -1) && forall t: SeqNum :: Between(start, x, t) ==> !Sizes(buf, t, x, forced)
    decreases ForwardDiff(start, x)
  {
    s := start;
    if !Sizes(buf, start, x, forced) {
      if start != x {
        s := KeySizeIs(buf, Next(start), x, forced);
        forall t: SeqNum ensures Between(start, x, t) <==> t == start || Between(Next(start), x, t) { }
        if SizesFirst(buf, Next(start), x, forced, s) {
          forall t: SeqNum | ForwardDiff(start, t) < ForwardDiff(start, s) ensures !Sizes(buf, t, x, forced) {
            assert t == start || ForwardDiff(Next(start), t) < ForwardDiff(Next(start), s);
          }
        }
      } else {
        forall t: SeqNum ensures Between(start, x, t) <==> t == start { }
      }
    }
  }

  lemma {:induction false} RunHasMore(buf: Slots, start: SeqNum, x: SeqNum, s: SeqNum, t: Nalu)
    requires Between(start, x, s) && RunHas(buf, s, x, t)
    ensures RunHas(buf, start, x, t)
    decreases ForwardDiff(start, x)
  {
    if s != start { RunHasMore(buf, Next(start), x, s, t); }
  }

  /** A run that makes no key frame gives no resolution. */
  lemma NoKeyNoSize(buf: Slots, start: SeqNum, x: SeqNum, forced: bool, s: SeqNum)
    requires Between(start, x, s) && Sizes(buf, s, x, forced)
    ensures RunIsKey(buf, start, x, forced)
  {
    RunHasMore(buf, start, x, s, Idr);
    if forced {
      RunHasMore(buf, start, x, s, Sps);
      RunHasMore(buf, start, x, s, Pps);
    }
  }

  /** All of the run of a timestamp that ends at x; its first packet has the resolution that the run gives, or keeps
      its own. */
  ghost predicate WholeOf(buf: Slots, x: SeqNum, forced: bool, f: seq<Packet>) {
    exists start: SeqNum :: && RunEndsAt(buf, start, x) && |f| == ForwardDiff(start, x) + 1
                            && Sized(buf, start, x, forced, f)
  }

  ghost predicate Sized(buf: Slots, start: SeqNum, x: SeqNum, forced: bool, f: seq<Packet>) {
    && f != [] && Cell(buf, start).Some?
    && (forall s: SeqNum :: SizesFirst(buf, start, x, forced, s) ==> SameSize(f[0], Cell(buf, s).value))
    && ((forall s: SeqNum :: !SizesFirst(buf, start, x, forced, s)) ==> SameSize(f[0], Cell(buf, start).value))
  }

  lemma FirstIsOne(buf: Slots, start: SeqNum, x: SeqNum, forced: bool, s: SeqNum, t: SeqNum)
    requires SizesFirst(buf, start, x, forced, s) && SizesFirst(buf, start, x, forced, t)
    ensures s == t
  {
  }

  lemma TypedSized(buf: Slots, start: SeqNum, x: SeqNum, forced: bool, search: BackSearch, f: seq<Packet>)
    requires search.FrameFrom? && search.isKey == RunIsKey(buf, start, x, forced) && Cell(buf, start).Some?
    requires (search.width, search.height) == KeySize(buf, start, x, forced)
    requires f != [] && SameSize(f[0], Typed(Cell(buf, start).value, search))
    ensures Sized(buf, start, x, forced, f)
  {
    var s := KeySizeIs(buf, start, x, forced);
    if SizesFirst(buf, start, x, forced, s) {
      NoKeyNoSize(buf, start, x, forced, s);
      forall t: SeqNum | SizesFirst(buf, start, x, forced, t) ensures t == s {
        FirstIsOne(buf, start, x, forced, s, t);
      }
    }
  }


  ghost predicate OutFrom(start: SeqNum, buf: Slots, missing: set<SeqNum>, forced: bool,
                          rest: Slots, after: set<SeqNum>, f: seq<Packet>, x: SeqNum)
  {
    && HandedOne(true, buf, missing, forced, rest, after, f, x) && KeepsFlags(buf, rest) && At(rest, x).None?
    && RunEndsAt(buf, start, x) && |f| == ForwardDiff(start, x) + 1 && Sized(buf, start, x, forced, f)
    && !Withholds(buf, missing, forced, x)
  }

  /** Everything about an H.264 frame that is handed out, */
  lemma H264Out(buf: Slots, rest: Slots, missing: set<SeqNum>, forced: bool, start: SeqNum, x: SeqNum,
                search: BackSearch, f: seq<Packet>, after: set<SeqNum>)
    requires Ring(buf) && RunEndsAt(buf, start, x) && AllCodec(buf, true) && Cell(buf, start).Some? && !RunBad(buf, x)
    requires after == set m | m in missing && AheadOf(m, x)
    requires search.FrameFrom? && search.isKey == RunIsKey(buf, start, x, forced)
    requires |f| == ForwardDiff(start, x) + 1 && Taking(TypedSlots(buf, start, search), rest, start, |f|, f)
    requires search.isKey || forall m :: m in missing ==> AheadOf(m, start)
    requires (search.width, search.height) == KeySize(buf, start, x, forced)
    ensures OutFrom(start, buf, missing, forced, rest, after, f, x)
  {
    var typed := TypedSlots(buf, start, search);
    H264Handed(buf, rest, missing, forced, start, x, search, f);
    TypedKeepsFlags(buf, start, search);
    TakenKeepsFlags(typed, rest, start, x, |f|);
    KeepsFlagsMore(buf, typed, rest);
    GatedIff(buf, missing, forced, start, x);
    assert Nth(typed, start, 0) == Cell(typed, start);
    TypedSized(buf, start, x, forced, search, f);
  }

  /** and about one that is withheld. */
  lemma H264Held(buf: Slots, missing: set<SeqNum>, forced: bool, start: SeqNum, x: SeqNum, search: BackSearch)
    requires Ring(buf) && RunEndsAt(buf, start, x) && AllCodec(buf, true) && Cell(buf, start).Some?
    requires search.FrameFrom? && search.isKey == RunIsKey(buf, start, x, forced)
    requires !search.isKey && exists m :: m in missing && !AheadOf(m, start)
    ensures var typed := TypedSlots(buf, start, search);
            Conserved(buf, typed, []) && SameRuns(buf, typed) && KeepsFlags(buf, typed)
    ensures Withholds(buf, missing, forced, x)
  {
    ConservedTyped(buf, start, x, search);
    TypedKeepsFlags(buf, start, search);
    GatedIff(buf, missing, forced, start, x);
  }

  // ---- Where the search for frames ends -----------------------------------------

  /** What rest stores, buf stored with the same flags, and marked packets stay marked. */
  ghost predicate KeepsFlags(buf: Slots, rest: Slots) {
    |rest| == |buf| &&
    forall s: SeqNum :: At(rest, s).Some? ==> && At(buf, s).Some? && At(rest, s).value.isLast == At(buf, s).value.isLast
                                              && At(rest, s).value.isFirst == At(buf, s).value.isFirst
                                              && (At(buf, s).value.continuous ==> At(rest, s).value.continuous)
  }

  lemma TakenKeepsFlags(buf: Slots, rest: Slots, start: SeqNum, x: SeqNum, n: nat)
    requires RunTaken(buf, rest, start, n) && n == ForwardDiff(start, x) + 1
    ensures KeepsFlags(buf, rest) && At(rest, x).None?
  {
    assert Plus(start, n - 1) == x;
    assert Nth(rest, start, n - 1) == Cell(rest, x);
    forall s: SeqNum | At(rest, s).Some? ensures At(rest, s) == At(buf, s) { }
  }

  lemma TypedKeepsFlags(buf: Slots, start: SeqNum, search: BackSearch)
    requires Cell(buf, start).Some? && search.FrameFrom?
    ensures KeepsFlags(buf, TypedSlots(buf, start, search)) && SameRuns(buf, TypedSlots(buf, start, search))
  {
  }

  lemma KeepsFlagsMore(a: Slots, b: Slots, c: Slots)
    requires KeepsFlags(a, b) && KeepsFlags(b, c)
    ensures KeepsFlags(a, c)
  {
  }

  /** The frame ends with a packet that was stored as the last one of its frame. */
  ghost predicate EndsIn(buf: Slots, f: seq<Packet>) {
    |f| > 0 && var e := At(buf, f[|f| - 1].seqNum); e.Some? && e.value.isLast
  }

  /** Packets still stored have the flags they had in buf0, by which the frames taken out end. */
  ghost predicate FlagsKept(h: bool, buf0: Slots, buf: Slots, frames: seq<seq<Packet>>) {
    KeepsFlags(buf0, buf) && (!h || SpanOk(buf0) ==> forall f :: f in frames ==> EndsIn(buf0, f))
  }

  lemma FlagsKeptMore(h: bool, buf0: Slots, buf: Slots, found: seq<Packet>, frames: seq<seq<Packet>>,
                      rest: Slots, f: seq<Packet>, x: SeqNum)
    requires Conserved(buf0, buf, found) && FlagsKept(h, buf0, buf, frames) && KeepsFlags(buf, rest)
    requires f != [] ==> && At(buf, x).Some? && At(buf, x).value.isLast
                         && (!h || SpanOk(buf) ==> f[|f| - 1].seqNum == x)
    ensures FlagsKept(h, buf0, rest, if f == [] then frames else frames + [f])
  {
    ConservedKeeps(buf0, buf, found, h);
    KeepsFlagsMore(buf0, buf, rest);
  }

  /** The packet numbered s has left, or it is marked and does not end its frame. */
  ghost predicate PassedBy(buf: Slots, s: SeqNum) {
    At(buf, s).Some? ==> At(buf, s).value.continuous && !At(buf, s).value.isLast
  }

  ghost predicate Walked(buf: Slots, from: SeqNum, i: nat) {
    forall j {:trigger PassedBy(buf, Plus(from, j))} :: 0 <= j < i ==> PassedBy(buf, Plus(from, j))
  }

  lemma WalkedOn(buf: Slots, rest: Slots, from: SeqNum, i: nat)
    requires Walked(buf, from, i) && KeepsFlags(buf, rest)
    ensures Walked(rest, from, i)
    ensures PassedBy(rest, Plus(from, i)) ==> Walked(rest, from, i + 1)
  {
    forall j | 0 <= j < i ensures PassedBy(rest, Plus(from, j)) { assert PassedBy(buf, Plus(from, j)); }
  }

  /** The search has passed the first i numbers, and ends there: because it went once round the ring, because
      the packet there is missing or does not continue a frame, or because it ends an H.264 frame that is withheld. */
  ghost predicate SearchedTo(buf: Slots, missing: set<SeqNum>, forced: bool, from: SeqNum, i: nat) {
    && i <= |buf| && Walked(buf, from, i)
    && var x := Plus(from, i);
       i == |buf| || !Potential(buf, x) || StopsAt(buf, missing, forced, x)
  }

  /** The packet numbered x ends an H.264 frame that is to stay stored. */
  ghost predicate StopsAt(buf: Slots, missing: set<SeqNum>, forced: bool, x: SeqNum) {
    && At(buf, x).Some? && At(buf, x).value.isLast && At(buf, x).value.codec.H264?
    && Withholds(buf, missing, forced, x)
  }

  ghost predicate Searched(buf: Slots, missing: set<SeqNum>, forced: bool, from: SeqNum) {
    exists i: nat :: SearchedTo(buf, missing, forced, from, i)
  }

  /** The rings differ only in the frame types and resolutions of their packets. */
  ghost predicate SameRuns(a: Slots, b: Slots) {
    |a| == |b| && forall s: SeqNum :: SameButType(Cell(a, s), Cell(b, s))
  }

  predicate SameButType(p: Option<Packet>, q: Option<Packet>) {
    if p.None? then q.None?
    else
      && q.Some?
      && p.value == q.value.(frameType := p.value.frameType, width := p.value.width, height := p.value.height)
  }

  lemma SameRun(a: Slots, b: Slots, start: SeqNum, x: SeqNum)
    requires SameRuns(a, b)
    ensures RunOf(a, start, x) ==> RunOf(b, start, x)
    ensures RunOf(b, start, x) ==> RunOf(a, start, x)
  {
    assert SameButType(Cell(a, x), Cell(b, x));
    forall s: SeqNum | Between(start, x, s) ensures SameButType(Cell(a, s), Cell(b, s)) { }
  }

  lemma {:induction false} SameNalus(a: Slots, b: Slots, start: SeqNum, x: SeqNum, t: Nalu)
    requires SameRuns(a, b)
    ensures RunHas(a, start, x, t) == RunHas(b, start, x, t)
    decreases ForwardDiff(start, x)
  {
    assert SameButType(Cell(a, start), Cell(b, start));
    if start != x { SameNalus(a, b, Next(start), x, t); }
  }

  lemma SameEnd(a: Slots, b: Slots, start: SeqNum, x: SeqNum, forced: bool)
    requires SameRuns(a, b) && RunEndsAt(a, start, x)
    ensures RunEndsAt(b, start, x) && RunIsKey(a, start, x, forced) == RunIsKey(b, start, x, forced)
  {
    SameRun(a, b, start, x);
    SameRun(a, b, Prev(start), x);
    SameNalus(a, b, start, x, Idr);
    SameNalus(a, b, start, x, Sps);
    SameNalus(a, b, start, x, Pps);
  }

  /** Setting the type of a frame that is withheld does not change that it is. */
  lemma SameWithheld(a: Slots, b: Slots, missing: set<SeqNum>, forced: bool, x: SeqNum)
    requires SameRuns(a, b) && Withholds(a, missing, forced, x)
    ensures Withholds(b, missing, forced, x)
  {
    if RunBad(a, x) {
      var start: SeqNum :| RunOf(a, start, x) && BadHeader(Cell(a, start));
      SameRun(a, b, start, x);
      assert SameButType(Cell(a, start), Cell(b, start));
      assert RunOf(b, start, x) && BadHeader(Cell(b, start));
    } else {
      var start: SeqNum :| && RunEndsAt(a, start, x) && !RunIsKey(a, start, x, forced)
                           && exists m :: m in missing && !AheadOf(m, start);
      SameEnd(a, b, start, x, forced);
      assert RunEndsAt(b, start, x) && !RunIsKey(b, start, x, forced);
    }
  }

  /** The slot of s holds nothing or the packet numbered s. */
  ghost predicate OnlyFor(buf: Slots, s: SeqNum)
  {
    Cell(buf, s).Some? ==> Cell(buf, s).value.seqNum == s
  }

  lemma OnlyForKept(buf0: Slots, buf: Slots, found: seq<Packet>, s: SeqNum)
    requires Conserved(buf0, buf, found) && OnlyFor(buf0, s)
    ensures OnlyFor(buf, s)
  {
    if Cell(buf, s).Some? { assert At(buf, Cell(buf, s).value.seqNum).Some?; }
  }

  lemma MarkKeeps(buf: Slots, x: SeqNum)
    requires Ring(buf) && At(buf, x).Some?
    ensures var marked := buf[Slot(x, |buf|) := Some(Cell(buf, x).value.(continuous := true))];
            && Conserved(buf, marked, []) && MarkedFrom(buf, marked, x) && OnlyFor(marked, x)
            && KeepsFlags(buf, marked) && PassedBy(marked, x) == !At(buf, x).value.isLast
  {
    ConservedRewrite(buf, Slot(x, |buf|), Cell(buf, x).value.(continuous := true));
  }

  /** A frame that is withheld after its last packet was marked changes nothing that matters. */
  lemma WithheldStep(before: Slots, marked: Slots, rest: Slots, missing: set<SeqNum>, forced: bool, x: SeqNum)
    requires Conserved(before, marked, []) && OnlyFor(marked, x) && KeepsFlags(before, marked)
    requires Conserved(marked, rest, []) && KeepsFlags(marked, rest) && SameRuns(marked, rest)
    requires StopsAt(marked, missing, forced, x)
    ensures Conserved(before, rest, []) && OnlyFor(rest, x) && KeepsFlags(before, rest)
    ensures StopsAt(rest, missing, forced, x)
  {
    ConservedMore(before, marked, rest, [], []);
    OnlyForKept(marked, rest, [], x);
    KeepsFlagsMore(before, marked, rest);
    SameWithheld(marked, rest, missing, forced, x);
    assert SameButType(Cell(marked, x), Cell(rest, x));
  }

  /** A frame that is handed out after its last packet was marked. */
  lemma HandedStep(h: bool, before: Slots, marked: Slots, missing: set<SeqNum>, forced: bool,
                   rest: Slots, after: set<SeqNum>, f: seq<Packet>, x: SeqNum)
    requires Conserved(before, marked, []) && OnlyFor(marked, x) && KeepsFlags(before, marked)
    requires HandedOne(h, marked, missing, forced, rest, after, f, x) && KeepsFlags(marked, rest)
    ensures HandedOne(h, before, missing, forced, rest, after, f, x)
    ensures OnlyFor(rest, x) && KeepsFlags(before, rest)
  {
    OnlyForKept(marked, rest, f, x);
    KeepsFlagsMore(before, marked, rest);
    HandedUnmark(h, before, marked, missing, forced, rest, after, f, x);
  }

  lemma HandedStill(h: bool, buf0: Slots, missing0: set<SeqNum>, forced: bool, buf: Slots, missing: set<SeqNum>,
                    found: seq<Packet>, frames: seq<seq<Packet>>, rest: Slots)
    requires Handed(h, buf0, missing0, forced, buf, missing, found, frames) && Conserved(buf, rest, [])
    ensures Handed(h, buf0, missing0, forced, rest, missing, found, frames)
  {
    ConservedMore(buf0, buf, rest, found, []);
    if h && SpanOk(buf0) { WholeKept(buf, rest, [], frames); }
    assert found + [] == found;
  }

  /** One turn of the search: a packet marked, or a frame handed out. */
  lemma FoundStep(h: bool, buf0: Slots, missing0: set<SeqNum>, forced: bool, buf: Slots, missing: set<SeqNum>,
                  found: seq<Packet>, frames: seq<seq<Packet>>, rest: Slots, after: set<SeqNum>, f: seq<Packet>,
                  x: SeqNum, s: SeqNum)
    requires Handed(h, buf0, missing0, forced, buf, missing, found, frames) && AllCodec(buf, h)
    requires f == [] ==> Conserved(buf, rest, []) && after == missing
    requires f != [] ==> HandedOne(h, buf, missing, forced, rest, after, f, x)
    ensures Handed(h, buf0, missing0, forced, rest, after, found + f, if f == [] then frames else frames + [f])
    ensures AllCodec(rest, h) && (OnlyFor(buf, s) ==> OnlyFor(rest, s))
  {
    if f == [] {
      HandedStill(h, buf0, missing0, forced, buf, missing, found, frames, rest);
      assert found + f == found;
    } else {
      HandedMore(h, buf0, missing0, forced, buf, missing, found, frames, rest, after, f, x);
    }
    ConservedKeeps(buf, rest, f, h);
    if OnlyFor(buf, s) { OnlyForKept(buf, rest, f, s); }
  }

  /** The walk over the ring is never cut short by its length: once it has gone round, the
      packet it would need next cannot be stored. */
  lemma ChainExhausted(buf: Slots, s: SeqNum, x: SeqNum, i: nat)
    requires Ring(buf) && SettledExcept(buf, x) && x == Plus(s, i) && i <= |buf|
    requires i < |buf| ==> !Potential(buf, x)
    requires i > 0 ==> OnlyFor(buf, s)
    ensures Settled(buf)
  {
    if i == |buf| {
      RingSizeOf(buf);
      SlotPlus(s, i, |buf|);
    }
    assert !Potential(buf, x);
  }

  /** Another stored packet needs the slot of s even in a ring of m slots. */
  ghost predicate Crowded(buf: Slots, s: SeqNum, m: nat)
    requires m > 0
  {
    exists i :: && 0 <= i < |buf| && buf[i].Some? && buf[i].value.seqNum != s
                && Slot(buf[i].value.seqNum, m) == Slot(s, m)
  }

  /** A crowded slot is taken in every smaller ring, and not by s itself. */
  lemma NotCrowded(buf: Slots, s: SeqNum, m: nat)
    requires Ring(buf) && PowerOfTwo(m) && |buf| <= m
    requires Cell(buf, s).None? || Cell(buf, s).value.seqNum == s
    ensures !Crowded(buf, s, m)
  {
    if Crowded(buf, s, m) {
      var i :| && 0 <= i < |buf| && buf[i].Some? && buf[i].value.seqNum != s
               && Slot(buf[i].value.seqNum, m) == Slot(s, m);
      SlotCoarser(buf[i].value.seqNum, s, |buf|, m);
      assert false;
    }
  }

  /** full stores what buf0 stores and, not yet marked, the packet. */
  ghost predicate FullWith(buf0: Slots, full: Slots, packet: Packet) {
    && 0 < |buf0| <= |full| && Ring(full)
    && forall s: SeqNum :: At(full, s) == if s == packet.seqNum then Some(packet.(continuous := false))
                                          else At(buf0, s)
  }

  /** Two rings that find the same packets are crowded alike. */
  lemma CrowdedAlike(buf0: Slots, buf: Slots, s: SeqNum, m: nat)
    requires Ring(buf0) && Ring(buf) && m > 0
    requires forall t: SeqNum :: At(buf, t) == At(buf0, t)
    ensures Crowded(buf0, s, m) ==> Crowded(buf, s, m)
  {
    if Crowded(buf0, s, m) {
      var i :| && 0 <= i < |buf0| && buf0[i].Some? && buf0[i].value.seqNum != s
               && Slot(buf0[i].value.seqNum, m) == Slot(s, m);
      var t := buf0[i].value.seqNum;
      assert At(buf, t) == At(buf0, t) == Some(buf0[i].value);
      assert buf[Slot(t, |buf|)] == buf0[i];
    }
  }

  /** Storing a packet in its free slot leaves only the packet itself unlooked-at. */
  lemma SettledStore(buf0: Slots, full: Slots, packet: Packet)
    requires FullWith(buf0, full, packet) && Settled(buf0) && At(buf0, packet.seqNum).None?
    ensures SettledExcept(full, packet.seqNum)
  {
    forall s: SeqNum
      ensures Sound(full, s) && (s != packet.seqNum ==> Marked(full, s))
    {
      assert Sound(buf0, s) && Marked(buf0, s);
    }
  }

  lemma StoreStep(buf0: Slots, buf: Slots, packet: Packet)
    requires Ring(buf0) && Ring(buf) && |buf0| <= |buf|
    requires forall s: SeqNum :: At(buf, s) == At(buf0, s)
    requires Cell(buf, packet.seqNum).None?
    ensures var full := buf[Slot(packet.seqNum, |buf|) := Some(packet.(continuous := false))];
            && FullWith(buf0, full, packet)
            && (AllCodec(buf, packet.codec.H264?) ==> AllCodec(full, packet.codec.H264?))
  {
    var full := buf[Slot(packet.seqNum, |buf|) := Some(packet.(continuous := false))];
    forall s: SeqNum
      ensures At(full, s) == if s == packet.seqNum then Some(packet.(continuous := false)) else At(buf0, s)
    {
      assert At(buf, s) == At(buf0, s);
    }
  }


  /** The packet numbered s is one that clearing to (not including) `next` drops: its slot is among
      the n visited from first, and it is older than next. */
  predicate Drops(buf: Slots, first: SeqNum, n: nat, next: SeqNum, s: SeqNum)
  {
    At(buf, s).Some? && InRun(first, n, |buf|, Slot(s, |buf|)) && AheadOf(next, s)
  }

  /** buf is buf0 after the n slots from first have been visited. */
  ghost predicate ClearedSlots(buf0: Slots, buf: Slots, first: SeqNum, n: nat, next: SeqNum)
  {
    && |buf| == |buf0|
    && forall i :: 0 <= i < |buf0| ==>
                     buf[i] == if InRun(first, n, |buf0|, i) && buf0[i].Some? && AheadOf(next, buf0[i].value.seqNum)
                               then None else buf0[i]
  }

  lemma ClearOne(buf0: Slots, buf: Slots, first: SeqNum, n: nat, next: SeqNum)
    requires Ring(buf0) && n < |buf0| && ClearedSlots(buf0, buf, first, n, next)
    ensures var i := Slot(Plus(first, n), |buf0|);
            && buf[i] == buf0[i]
            && ClearedSlots(buf0, if buf[i].Some? && AheadOf(next, buf[i].value.seqNum) then buf[i := None] else buf,
                            first, n + 1, next)
  {
    RingSizeOf(buf0);
    var i := Slot(Plus(first, n), |buf0|);
    if InRun(first, n, |buf0|, i) {
      var k :| 0 <= k < n && Slot(Plus(first, k), |buf0|) == i;
      SlotsDistinct(first, k, n, |buf0|);
      assert false;
    }
    forall j | 0 <= j < |buf0|
      ensures InRun(first, n + 1, |buf0|, j) <==> InRun(first, n, |buf0|, j) || j == i
    {
      if InRun(first, n, |buf0|, j) {
        var k :| 0 <= k < n && Slot(Plus(first, k), |buf0|) == j;
      }
      if j == i { assert Slot(Plus(first, n), |buf0|) == j; }
    }
  }

  /** The clear cuts through a partly received frame: it drops a packet but keeps its marked successor. */
  predicate CutsFrame(buf: Slots, first: SeqNum, n: nat, next: SeqNum)
  {
    exists s: SeqNum :: && 0 <= s < 65536
                        && At(buf, s).Some? && At(buf, s).value.continuous && !At(buf, s).value.isFirst
                        && !Drops(buf, first, n, next, s) && Drops(buf, first, n, next, Prev(s))
  }

  /** Clearing keeps the marks right exactly when it cuts no frame. */
  lemma ClearedSettled(buf0: Slots, buf: Slots, first: SeqNum, n: nat, next: SeqNum)
    requires Ring(buf0) && ClearedSlots(buf0, buf, first, n, next)
    ensures Ring(buf) && forall s: SeqNum :: At(buf, s) == if Drops(buf0, first, n, next, s) then None else At(buf0, s)
    ensures forall h :: AllCodec(buf0, h) ==> AllCodec(buf, h)
    ensures Settled(buf0) ==> (Settled(buf) <==> !CutsFrame(buf0, first, n, next))
  {
    if Settled(buf0) && CutsFrame(buf0, first, n, next) {
      var s: SeqNum :| && At(buf0, s).Some? && At(buf0, s).value.continuous && !At(buf0, s).value.isFirst
                       && !Drops(buf0, first, n, next, s) && Drops(buf0, first, n, next, Prev(s));
      assert !Sound(buf, s);
    }
    if Settled(buf0) && !CutsFrame(buf0, first, n, next) {
      forall s: SeqNum
        ensures Sound(buf, s) && Marked(buf, s)
      {
        assert Sound(buf0, s) && Marked(buf0, s);
      }
    }
  }

  /** While every stored packet and the clear point are at or after first, clearing drops exactly
      the packets older than the clear point. */
  lemma ClearedExactly(buf: Slots, first: SeqNum, next: SeqNum, s: SeqNum)
    requires Ring(buf) && At(buf, s).Some?
    requires ForwardDiff(first, s) < 32768 && ForwardDiff(first, next) < 32768
    ensures var n := if ForwardDiff(first, next) < |buf| then ForwardDiff(first, next) else |buf|;
            Drops(buf, first, n, next, s) <==> AheadOf(next, s)
  {
    RingSizeOf(buf);
    var n := if ForwardDiff(first, next) < |buf| then ForwardDiff(first, next) else |buf|;
    var d := ForwardDiff(first, s);
    if AheadOf(next, s) {
      if n < |buf| {
        assert Plus(first, d) == s;
        assert Slot(Plus(first, d), |buf|) == Slot(s, |buf|);
      } else {
        var a, b := Slot(first, |buf|), Slot(s, |buf|);
        var k := if b >= a then b - a else b - a + |buf|;
        SlotPlus(first, k, |buf|);
        assert Slot(Plus(first, k), |buf|) == b;
      }
    }
  }

  /** Packets 0 and 1 of an unfinished frame, both marked. */
  ghost function Unfinished(): Slots {
    var p := Packet(0, 0, OtherCodec, true, false, None, DeltaFrame, 0, 0, [], true);
    [Some(p), Some(p.(seqNum := 1, isFirst := false))]
  }

  lemma UnfinishedSettled()
    ensures Settled(Unfinished())
  {
    var buf := Unfinished();
    forall s: SeqNum
      ensures Sound(buf, s) && Marked(buf, s)
    {
      var i := Slot(s, 2);
      assert i == 0 || i == 1;
    }
  }

  /** A clear that does cut the settled ring: it drops packet 0 and keeps packet 1. */
  lemma ClearCanCut()
    ensures CutsFrame(Unfinished(), 0, 1, 1)
  {
    var buf := Unfinished();
    assert InRun(0, 1, 2, 0) by { assert Slot(Plus(0, 0), 2) == 0; }
    assert !Drops(buf, 0, 1, 1, 1) && Drops(buf, 0, 1, 1, Prev(1));
  }
}
