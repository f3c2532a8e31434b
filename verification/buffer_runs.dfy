/** Whole runs of the packet buffer, from its creation on. */
module BufferRuns {
  import opened SeqNums
  import opened PacketRing
  import opened FrameRuns
  import opened PacketBuffers
  import opened PacketFates
  import opened BufferSteps

  lemma {:induction false} FlattenAppend(a: seq<seq<Packet>>, b: seq<seq<Packet>>)
    ensures Flatten(a + b) == Flatten(a) + Flatten(b)
  {
    if b == [] {
      assert a + b == a;
    } else {
      var l := |b| - 1;
      assert (a + b)[..|a + b| - 1] == a + b[..l];
      FlattenAppend(a, b[..l]);
    }
  }

  // ---- One operation ------------------------------------------------------------------

  function SnapOf(b: PacketBuffer): Snapshot
    reads b
  {
    Snapshot(b.buffer, b.missingPackets, b.newestInsertedSeqNum, b.firstSeqNum, b.firstPacketReceived,
             b.isClearedToFirstSeqNum)
  }

  /** One insert, told by what the buffer remembers. */
  method InsertAnd(b: PacketBuffer, packet: Packet)
    returns (found: seq<Packet>, ghost full: Slots, ghost frames: seq<seq<Packet>>)
    requires b.Valid() && b.Ready(packet.codec.H264?)
    modifies b
    ensures b.Valid() && b.Ready(packet.codec.H264?) && |b.buffer| >= |old(b.buffer)|
    ensures b.spsPpsIdrIsH264Keyframe == old(b.spsPpsIdrIsH264Keyframe)
    ensures old(Admits(SnapOf(b), packet.seqNum, b.maxSize)) ==>
              Admitted(b.spsPpsIdrIsH264Keyframe, old(SnapOf(b)), packet, full, SnapOf(b), found, frames)
    ensures !old(Admits(SnapOf(b), packet.seqNum, b.maxSize)) ==>
              found == [] && frames == [] && Unchanged(old(SnapOf(b)), packet.seqNum, SnapOf(b))
  {
    ghost var admits := Admits(SnapOf(b), packet.seqNum, b.maxSize);
    var r;
    r, full, frames := b.InsertPacket(packet);
    found := r.packets;
    if !admits { frames := []; }
  }

  /** The buffer after the operations that have a fate: every packet accounted for, and the clear point in force
      is that of the operation `cleared`. */
  ghost predicate Follows(b: PacketBuffer, ops: seq<Op>, out: seq<Packet>, fate: seq<Fate>, cleared: nat)
    reads b
  {
    && b.Valid() && Accounts(ops, b.maxSize, out, b.buffer, fate)
    && (b.isClearedToFirstSeqNum ==>
          && b.firstPacketReceived && cleared < |fate| && ops[cleared].DropTo?
          && b.firstSeqNum == Next(ops[cleared].seqNum))
  }

  lemma AccountsNothing(ops: seq<Op>, size: nat, buf: Slots)
    requires Empty(buf) && size > 0
    ensures Accounts(ops, size, [], buf, [])
  {
    assert forall s: SeqNum :: At(buf, s).None?;
  }

  /** A stored packet in the way of s in the largest ring. */
  lemma CrowdedBy(ops: seq<Op>, size: nat, out: seq<Packet>, buf: Slots, fate: seq<Fate>, s: SeqNum) returns (j: nat)
    requires Accounts(ops, size, out, buf, fate) && Ring(buf) && Crowded(buf, s, size)
    ensures j < |fate| && OwnedBy(ops, fate, Number(ops[j]), j)
    ensures Number(ops[j]) != s && Slot(Number(ops[j]), size) == Slot(s, size)
  {
    var i :| && 0 <= i < |buf| && buf[i].Some? && buf[i].value.seqNum != s
             && Slot(buf[i].value.seqNum, size) == Slot(s, size);
    var t := buf[i].value.seqNum;
    assert At(buf, t).Some?;
    assert HasOwner(ops, fate, t);
    j :| OwnedBy(ops, fate, t, j);
  }

  lemma StoredFate(ops: seq<Op>, size: nat, out: seq<Packet>, buf: Slots, fate: seq<Fate>, full: Slots, left: Slots,
                   found: seq<Packet>) returns (more: seq<Fate>)
    requires Accounts(ops, size, out, buf, fate) && |fate| < |ops| && ops[|fate|].Insert?
    requires FullWith(buf, full, ops[|fate|].packet) && At(buf, Number(ops[|fate|])).None? &&
             Conserved(full, left, found)
    ensures Accounts(ops, size, out, full, fate + [Stored])
    ensures Accounts(ops, size, out + found, left, more) && |more| == |fate| + 1
    ensures SameReason(fate, more) && WasStored(more[|fate|])
  {
    StoreNext(ops, size, out, buf, fate, full);
    more := TakeNext(ops, size, out, full, fate + [Stored], left, found);
    assert (fate + [Stored])[|fate|] == Stored;
  }

  /** The fate of a packet that is not stored. */
  lemma UnstoredFate(b0: Slots, ignored: bool, cleared: nat, ops: seq<Op>, size: nat, out: seq<Packet>, fate: seq<Fate>,
                     left: Slots) returns (more: seq<Fate>)
    requires Accounts(ops, size, out, b0, fate) && Ring(b0) && |fate| < |ops| && ops[|fate|].Insert? && |left| > 0
    requires var s := Number(ops[|fate|]); ignored || At(b0, s).Some? || Crowded(b0, s, size)
    requires ignored ==>
             cleared < |fate| && ops[cleared].DropTo? && AheadOf(Next(ops[cleared].seqNum), Number(ops[|fate|]))
    requires if ignored || At(b0, Number(ops[|fate|])).Some? then left == b0 else Empty(left)
    ensures Accounts(ops, size, out, left, more) && |more| == |fate| + 1 && SameReason(fate, more)
    ensures if ignored then more[|fate|].Ignored? else if At(b0, Number(ops[|fate|])).Some? then more[|fate|].Duplicate?
            else more[|fate|].Collided?
  {
    var n, s := |fate|, Number(ops[|fate|]);
    if ignored {
      more := fate + [Ignored(cleared)];
      PassOver(ops, size, out, b0, fate, Ignored(cleared));
    } else if At(b0, s).Some? {
      assert HasOwner(ops, fate, s);
      var j: nat :| OwnedBy(ops, fate, s, j);
      more := fate + [Duplicate(j)];
      PassOver(ops, size, out, b0, fate, Duplicate(j));
    } else {
      var j := CrowdedBy(ops, size, out, b0, fate, s);
      assert forall t: SeqNum :: At(left, t).None?;
      more := DropNext(ops, size, out, b0, fate, left, Collided(j));
    }
  }

  /** One insert. `full` is the ring with the packet stored, if it was. */
  method DoInsert(b: PacketBuffer, packet: Packet, ghost ops: seq<Op>, ghost out: seq<Packet>, ghost fate: seq<Fate>,
                  ghost cleared: nat)
    returns (found: seq<Packet>, ghost full: Slots, ghost frames: seq<seq<Packet>>, ghost more: seq<Fate>)
    requires Follows(b, ops, out, fate, cleared) && b.Ready(packet.codec.H264?)
    requires |fate| < |ops| && ops[|fate|] == Insert(packet)
    modifies b
    ensures Follows(b, ops, out + found, more, cleared) && b.Ready(packet.codec.H264?)
    ensures |more| == |fate| + 1 && SameReason(fate, more) && |b.buffer| >= |old(b.buffer)|
    ensures b.spsPpsIdrIsH264Keyframe == old(b.spsPpsIdrIsH264Keyframe)
    ensures WasStored(more[|fate|]) <==> old(Admits(SnapOf(b), packet.seqNum, b.maxSize))
    ensures WasStored(more[|fate|]) ==>
              && Accounts(ops, b.maxSize, out, full, fate + [Stored])
              && Admitted(b.spsPpsIdrIsH264Keyframe, old(SnapOf(b)), packet, full, SnapOf(b), found, frames)
    ensures !WasStored(more[|fate|]) ==>
              found == [] && frames == [] && Refused(old(SnapOf(b)), packet.seqNum, more[|fate|], SnapOf(b))
  {
    ghost var before := SnapOf(b);
    found, full, frames := InsertAnd(b, packet);
    if Admits(before, packet.seqNum, b.maxSize) {
      more := StoredFate(ops, b.maxSize, out, before.ring, fate, full, b.buffer, found);
    } else {
      more := UnstoredFate(before.ring, TooOld(before, packet.seqNum), cleared, ops, b.maxSize, out, fate, b.buffer);
      assert out + found == out;
    }
  }

  method DoPadding(b: PacketBuffer, s: SeqNum, ghost h: bool, ghost ops: seq<Op>, ghost out: seq<Packet>,
                   ghost fate: seq<Fate>, ghost cleared: nat)
    returns (found: seq<Packet>, ghost frames: seq<seq<Packet>>, ghost more: seq<Fate>)
    requires Follows(b, ops, out, fate, cleared) && b.Ready(h) && |fate| < |ops| && ops[|fate|] == Padding(s)
    modifies b
    ensures Follows(b, ops, out + found, more, cleared) && b.Ready(h)
    ensures |more| == |fate| + 1 && SameReason(fate, more) && |b.buffer| == |old(b.buffer)|
    ensures b.spsPpsIdrIsH264Keyframe == old(b.spsPpsIdrIsH264Keyframe)
    ensures b.firstSeqNum == old(b.firstSeqNum) && b.firstPacketReceived == old(b.firstPacketReceived)
    ensures FramesFound(h, b.spsPpsIdrIsH264Keyframe, old(SnapOf(b)), s, old(b.buffer), Next(s), SnapOf(b), found,
                        frames)
  {
    ghost var buf0 := b.buffer;
    var r;
    r, frames := b.InsertPadding(s, h);
    found := r.packets;
    PassOver(ops, b.maxSize, out, buf0, fate, NoPacket);
    more := TakeNext(ops, b.maxSize, out, buf0, fate + [NoPacket], b.buffer, found);
    assert (fate + [NoPacket])[|fate|] == NoPacket;
  }

  method DoDropTo(b: PacketBuffer, s: SeqNum, ghost h: bool, ghost ops: seq<Op>, ghost out: seq<Packet>,
                  ghost fate: seq<Fate>, ghost cleared: nat)
    returns (ghost more: seq<Fate>, ghost cleared': nat)
    requires Follows(b, ops, out, fate, cleared) && b.Ready(h) && |fate| < |ops| && ops[|fate|] == DropTo(s)
    requires !h && b.ClearActs(s) ==> !Cuts(b.buffer, b.firstSeqNum, s)
    modifies b
    ensures Follows(b, ops, out, more, cleared') && b.Ready(h)
    ensures |more| == |fate| + 1 && SameReason(fate, more) && |b.buffer| == |old(b.buffer)|
    ensures b.spsPpsIdrIsH264Keyframe == old(b.spsPpsIdrIsH264Keyframe)
    ensures DroppedTo(old(SnapOf(b)), s, SnapOf(b))
  {
    ghost var buf0, acts := b.buffer, b.ClearActs(s);
    b.ClearTo(s);
    cleared' := if acts then |fate| else cleared;
    if acts {
      more := DropNext(ops, b.maxSize, out, buf0, fate, b.buffer, NoPacket);
    } else {
      more := fate + [NoPacket];
      PassOver(ops, b.maxSize, out, buf0, fate, NoPacket);
    }
  }

  method DoDropAll(b: PacketBuffer, ghost ops: seq<Op>, ghost out: seq<Packet>, ghost fate: seq<Fate>,
                   ghost cleared: nat)
    returns (ghost more: seq<Fate>)
    requires Follows(b, ops, out, fate, cleared) && |fate| < |ops| && ops[|fate|] == DropAll
    modifies b
    ensures Follows(b, ops, out, more, cleared) && b.Ready(true) && b.Ready(false) && Emptied(SnapOf(b))
    ensures |more| == |fate| + 1 && SameReason(fate, more) && |b.buffer| == |old(b.buffer)|
    ensures b.spsPpsIdrIsH264Keyframe == old(b.spsPpsIdrIsH264Keyframe)
  {
    ghost var buf0 := b.buffer;
    b.Clear();
    assert forall t: SeqNum :: At(b.buffer, t).None?;
    more := DropNext(ops, b.maxSize, out, buf0, fate, b.buffer, NoPacket);
  }

  // ---- Codecs with frame flags ------------------------------------------------------------

  ghost predicate Frames(out: seq<Packet>, frames: seq<seq<Packet>>) { out == Flatten(frames) && AllFrames(frames) }

  lemma FramesMore(out: seq<Packet>, frames: seq<seq<Packet>>, found: seq<Packet>, more: seq<seq<Packet>>)
    requires Frames(out, frames) && Frames(found, more)
    ensures Frames(out + found, frames + more)
  {
    FlattenAppend(frames, more);
  }

  /** Every run of a buffer for a codec with frame flags, from its creation on and up to a clear that
      would cut a partly received frame: every packet inserted is accounted for, what is handed out splits
      into proper frames, and no complete frame is left behind. */
  method Run(startSize: nat, maxSize: nat, ops: seq<Op>)
    returns (done: nat, out: seq<Packet>, left: Slots, first: SeqNum)
    requires PowerOfTwo(startSize) && PowerOfTwo(maxSize) && startSize <= maxSize <= 32768
    requires forall i :: 0 <= i < |ops| && ops[i].Insert? ==> ops[i].packet.codec.OtherCodec?
    ensures done <= |ops| && Ring(left) && |left| <= maxSize && Settled(left)
    ensures done < |ops| ==> ops[done].DropTo? && Cuts(left, first, ops[done].seqNum)
    ensures exists fate :: |fate| == done && Accounts(ops, maxSize, out, left, fate)
    ensures exists frames :: Frames(out, frames)
  {
    var b := new PacketBuffer(startSize, maxSize);
    AccountsNothing(ops, maxSize, b.buffer);
    done, out := 0, [];
    ghost var frames: seq<seq<Packet>>, fate: seq<Fate>, cleared: nat := [], [], 0;
    while done < |ops|
      invariant done <= |ops| && b.Ready(false) && b.maxSize == maxSize && fresh(b)
      invariant |fate| == done && Follows(b, ops, out, fate, cleared) && Frames(out, frames)
    {
      match ops[done] {
        case Insert(p) =>
          var found;
          ghost var full, more;
          found, full, more, fate := DoInsert(b, p, ops, out, fate, cleared);
          FramesMore(out, frames, found, more);
          out, frames := out + found, frames + more;
        case Padding(s) =>
          var found;
          ghost var more;
          found, more, fate := DoPadding(b, s, false, ops, out, fate, cleared);
          FramesMore(out, frames, found, more);
          out, frames := out + found, frames + more;
        case DropTo(s) =>
          if b.ClearActs(s) && Cuts(b.buffer, b.firstSeqNum, s) {
            return done, out, b.buffer, b.firstSeqNum;
          }
          fate, cleared := DoDropTo(b, s, false, ops, out, fate, cleared);
        case DropAll =>
          fate := DoDropAll(b, ops, out, fate, cleared);
      }
      done := done + 1;
    }
    left, first := b.buffer, b.firstSeqNum;
  }

  // ---- H.264 ---------------------------------------------------------------------------------

  /** Packets of one timestamp are inserted with numbers less than half a ring of n slots apart. */
  ghost predicate Spread(ops: seq<Op>, n: nat) {
    forall i, j :: 0 <= i < |ops| && 0 <= j < |ops| && ops[i].Insert? && ops[j].Insert? &&
                   ops[i].packet.timestamp == ops[j].packet.timestamp ==>
                     Near(ops[i].packet.seqNum, ops[j].packet.seqNum, n)
  }

  lemma SpanOfInserted(ops: seq<Op>, size: nat, out: seq<Packet>, buf: Slots, fate: seq<Fate>, start: nat)
    requires Accounts(ops, size, out, buf, fate) && Ring(buf) && start <= |buf| && Spread(ops, start)
    ensures SpanOk(buf)
  {
    forall i, j | 0 <= i < |buf| && 0 <= j < |buf| && buf[i].Some? && buf[j].Some? &&
                  buf[i].value.timestamp == buf[j].value.timestamp
      ensures Near(buf[i].value.seqNum, buf[j].value.seqNum, |buf|)
    {
      var k := OwnerOf(ops, size, out, buf, fate, i);
      var l := OwnerOf(ops, size, out, buf, fate, j);
    }
  }

  lemma OwnerOf(ops: seq<Op>, size: nat, out: seq<Packet>, buf: Slots, fate: seq<Fate>, i: nat) returns (k: nat)
    requires Accounts(ops, size, out, buf, fate) && Ring(buf) && i < |buf| && buf[i].Some?
    ensures k < |ops| && ops[k].Insert? && ops[k].packet.seqNum == buf[i].value.seqNum
    ensures ops[k].packet.timestamp == buf[i].value.timestamp
  {
    var s := buf[i].value.seqNum;
    assert At(buf, s) == buf[i];
    assert HasOwner(ops, fate, s);
    k :| OwnedBy(ops, fate, s, k);
    assert FateOk(ops, size, out, buf, fate, k);
    SameBody(ops[k].packet, buf[i].value);
  }

  lemma SameBody(p: Packet, q: Packet)
    requires Body(p) == Body(q)
    ensures p.seqNum == q.seqNum && p.timestamp == q.timestamp
  {
  }

  ghost predicate RingsBounded(trace: seq<Snapshot>, low: nat, high: nat) {
    forall k :: 0 <= k < |trace| ==> Ring(trace[k].ring) && low <= |trace[k].ring| <= high
  }

  /** Every run of a buffer for H.264 whose packets of one timestamp lie less than half the first ring apart:
      every packet inserted is accounted for; what is handed out splits into proper frames, marked key exactly
      when they carry an IDR, together with SPS and PPS when forced; no delta frame is handed out while a packet
      at or before its start is missing, and the missing numbers lie in the 1000 before the newest. The trace
      holds the buffer after each operation, and shows what each one did. */
  method RunH264(startSize: nat, maxSize: nat, forced: bool, ops: seq<Op>)
    returns (out: seq<Packet>, left: Slots, trace: seq<Snapshot>)
    requires PowerOfTwo(startSize) && PowerOfTwo(maxSize) && startSize <= maxSize <= 32768
    requires forall i :: 0 <= i < |ops| && ops[i].Insert? ==> ops[i].packet.codec.H264?
    requires Spread(ops, startSize)
    ensures |trace| == |ops| + 1 && trace[|ops|].ring == left
    ensures RingsBounded(trace, startSize, maxSize)
    ensures exists fate, log :: |fate| == |ops| && H264Log(ops, maxSize, forced, out, fate, log, trace) &&
                                Accounts(ops, maxSize, out, left, fate) && GapsRespected(ops, fate, log, trace)
    ensures forall k :: 0 <= k <= |ops| && NoJumps(ops, trace, k) ==> SnapOk(trace[k])
  {
    var b := new PacketBuffer(startSize, maxSize);
    if forced { b.ForceSpsPpsIdrIsH264Keyframe(); }
    AccountsNothing(ops, maxSize, b.buffer);
    out := [];
    trace := [SnapOf(b)];
    ghost var fate: seq<Fate>, cleared: nat, log: seq<seq<seq<Packet>>> := [], 0, [];
    for n := 0 to |ops|
      invariant fresh(b) && b.maxSize == maxSize
      invariant Follows264(b, startSize, forced, ops, out, fate, cleared, log, trace) && |fate| == n
    {
      var found;
      ghost var more, frames;
      found, more, frames, cleared := Grow264(b, startSize, forced, ops, out, fate, cleared, log, trace);
      out, fate, log, trace := out + found, more, log + [frames], trace + [SnapOf(b)];
    }
    left := b.buffer;
    WindowsKept(ops, maxSize, forced, out, fate, log, trace);
    AllGapsRespected(ops, maxSize, forced, out, fate, log, trace);
  }

  /** The buffer after the operations that have a fate, and what happened so far. */
  ghost predicate Follows264(b: PacketBuffer, startSize: nat, forced: bool, ops: seq<Op>, out: seq<Packet>,
                             fate: seq<Fate>, cleared: nat, log: seq<seq<seq<Packet>>>, trace: seq<Snapshot>)
    reads b
  {
    && Follows(b, ops, out, fate, cleared) && b.Ready(true) && b.spsPpsIdrIsH264Keyframe == forced
    && H264Log(ops, b.maxSize, forced, out, fate, log, trace) && trace[|log|] == SnapOf(b)
    && RingsBounded(trace, startSize, b.maxSize)
  }

  method Grow264(b: PacketBuffer, ghost startSize: nat, ghost forced: bool, ops: seq<Op>, ghost out: seq<Packet>,
                 ghost fate: seq<Fate>, ghost cleared: nat, ghost log: seq<seq<seq<Packet>>>, trace: seq<Snapshot>)
    returns (found: seq<Packet>, ghost more: seq<Fate>, ghost frames: seq<seq<Packet>>, ghost cleared': nat)
    requires Follows264(b, startSize, forced, ops, out, fate, cleared, log, trace) && |fate| < |ops|
    requires Spread(ops, startSize) && (ops[|fate|].Insert? ==> ops[|fate|].packet.codec.H264?)
    modifies b
    ensures Follows264(b, startSize, forced, ops, out + found, more, cleared', log + [frames], trace + [SnapOf(b)])
    ensures |more| == |fate| + 1
  {
    found, more, frames, cleared' := Do264(b, ops[|trace| - 1], forced, startSize, ops, out, fate, cleared);
    H264LogGrows(ops, b.maxSize, forced, out, fate, log, trace, more, found, frames, SnapOf(b));
  }

  method Do264(b: PacketBuffer, op: Op, ghost forced: bool, ghost startSize: nat, ghost ops: seq<Op>,
               ghost out: seq<Packet>, ghost fate: seq<Fate>, ghost cleared: nat)
    returns (found: seq<Packet>, ghost more: seq<Fate>, ghost frames: seq<seq<Packet>>, ghost cleared': nat)
    requires Follows(b, ops, out, fate, cleared) && b.Ready(true) && |fate| < |ops| && ops[|fate|] == op
    requires op.Insert? ==> op.packet.codec.H264?
    requires Spread(ops, startSize) && startSize <= |b.buffer| && b.spsPpsIdrIsH264Keyframe == forced
    modifies b
    ensures Follows(b, ops, out + found, more, cleared') && b.Ready(true) && b.spsPpsIdrIsH264Keyframe == forced
    ensures |more| == |fate| + 1 && SameReason(fate, more) && startSize <= |b.buffer| && found == Flatten(frames)
    ensures H264Step(b.maxSize, forced, old(SnapOf(b)), op, more[|fate|], frames, SnapOf(b))
  {
    ghost var before, buf0 := SnapOf(b), b.buffer;
    found, frames, cleared' := [], [], cleared;
    match op {
      case Insert(p) =>
        ghost var full;
        found, full, frames, more := DoInsert(b, p, ops, out, fate, cleared);
        if WasStored(more[|fate|]) {
          SpanOfInserted(ops, b.maxSize, out, full, fate + [Stored], startSize);
          FramesGated(forced, before, p.seqNum, full, p.seqNum, SnapOf(b), found, frames);
          assert StoredStep(forced, before, p, full, frames, SnapOf(b));
        }
      case Padding(s) =>
        SpanOfInserted(ops, b.maxSize, out, buf0, fate, startSize);
        found, frames, more := DoPadding(b, s, true, ops, out, fate, cleared);
        FramesGated(forced, before, s, buf0, Next(s), SnapOf(b), found, frames);
      case DropTo(s) =>
        more, cleared' := DoDropTo(b, s, true, ops, out, fate, cleared);
        assert out + found == out;
      case DropAll =>
        more := DoDropAll(b, ops, out, fate, cleared);
        assert out + found == out;
    }
  }
}
