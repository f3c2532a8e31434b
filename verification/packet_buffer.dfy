/** The video packet buffer: a growable ring that stores packets by sequence number
    and hands out the packets of frames as soon as they are complete. */
module PacketBuffers {
  import opened Options
  import opened SeqNums
  import opened FrameTypes
  import opened PacketRing
  import opened MissingPackets
  import opened FrameRuns

  datatype InsertResult = InsertResult(packets: seq<Packet>, bufferCleared: bool)

  /** Moves every packet of a ring into a ring of twice the size. */
  method Rehash(buf: Slots, newSize: nat) returns (newBuffer: Slots)
    requires Ring(buf) && newSize == 2 * |buf| <= 32768 && PowerOfTwo(newSize)
    ensures |newBuffer| == newSize && Ring(newBuffer)
    ensures forall s: SeqNum :: At(newBuffer, s) == At(buf, s)
    ensures forall h :: AllCodec(buf, h) ==> AllCodec(newBuffer, h)
  {
    newBuffer := seq(newSize, _ => None);
    var i := 0;
    while i < |buf|
      invariant i <= |buf| && |newBuffer| == newSize
      invariant Rehashed(buf, i, newBuffer)
    {
      RehashStep(buf, i, newBuffer);
      if buf[i].Some? {
        var slot := Slot(buf[i].value.seqNum, newSize);
        newBuffer := newBuffer[slot := buf[i]];
      }
      i := i + 1;
    }
    RehashDone(buf, newBuffer);
  }

  class PacketBuffer {
    const maxSize: nat
    var firstSeqNum: SeqNum
    var firstPacketReceived: bool
    var isClearedToFirstSeqNum: bool
    var buffer: Slots
    var newestInsertedSeqNum: Option<SeqNum>
    var missingPackets: set<SeqNum>
    var spsPpsIdrIsH264Keyframe: bool

    ghost predicate Valid()
      reads this
    {
      Ring(buffer) && PowerOfTwo(maxSize) && |buffer| <= maxSize <= 32768
    }

    constructor (startBufferSize: nat, maxBufferSize: nat)
      requires PowerOfTwo(startBufferSize) && PowerOfTwo(maxBufferSize)
      requires startBufferSize <= maxBufferSize <= 32768
      ensures Valid() && maxSize == maxBufferSize && |buffer| == startBufferSize
      ensures Empty(buffer) && Settled(buffer) && AllCodec(buffer, true) && AllCodec(buffer, false)
      ensures !firstPacketReceived && !isClearedToFirstSeqNum && newestInsertedSeqNum.None? && missingPackets == {}
      ensures !spsPpsIdrIsH264Keyframe
    {
      maxSize := maxBufferSize;
      firstSeqNum := 0;
      firstPacketReceived := false;
      isClearedToFirstSeqNum := false;
      buffer := seq(startBufferSize, _ => None);
      newestInsertedSeqNum := None;
      missingPackets := {};
      spsPpsIdrIsH264Keyframe := false;
    }

    predicate PotentialNewFrame(seqNum: SeqNum): (b: bool)
      requires Valid()
      reads this
      ensures b <==> Potential(buffer, seqNum)
    {
      var index := Slot(seqNum, |buffer|);
      var prevIndex := if index > 0 then index - 1 else |buffer| - 1;
      var entry := buffer[index];
      var prevEntry := buffer[prevIndex];
      RingSizeOf(buffer); SlotPrev(seqNum, |buffer|);
      && entry.Some?
      && entry.value.seqNum == seqNum
      && (|| entry.value.isFirst
          || (&& prevEntry.Some?
              && prevEntry.value.seqNum == Prev(entry.value.seqNum)
              && prevEntry.value.timestamp == entry.value.timestamp
              && prevEntry.value.continuous))
    }

    /** Doubling the ring keeps every packet findable and adds or drops none. */
    method ExpandBufferSize() returns (expanded: bool)
      requires Valid()
      modifies this`buffer
      ensures Valid()
      ensures expanded == (old(|buffer|) < maxSize)
      ensures |buffer| == if expanded then 2 * old(|buffer|) else old(|buffer|)
      ensures forall s: SeqNum :: At(buffer, s) == At(old(buffer), s)
      ensures forall h :: AllCodec(old(buffer), h) ==> AllCodec(buffer, h)
    {
      if |buffer| == maxSize { return false; }
      PowerOfTwoBound(|buffer|, maxSize);
      var newSize := if maxSize < 2 * |buffer| then maxSize else 2 * |buffer|;
      buffer := Rehash(buffer, newSize);
      expanded := true;
    }

    /** What is recorded missing lies in the 1000 numbers before the newest one. */
    ghost predicate WindowOk()
      reads this
    {
      if newestInsertedSeqNum.None? then missingPackets == {} else InWindow(missingPackets, newestInsertedSeqNum.value)
    }

    /** A jump of exactly half the number space, from a newest number below 1000 with the oldest one missing. */
    ghost predicate HalfJump(seqNum: SeqNum)
      reads this
    {
      newestInsertedSeqNum.Some? && JumpsHalf(missingPackets, newestInsertedSeqNum.value, seqNum)
    }

    method UpdateMissingPackets(seqNum: SeqNum)
      modifies this`newestInsertedSeqNum, this`missingPackets
      ensures var newest := old(newestInsertedSeqNum).GetOr(seqNum);
              && newestInsertedSeqNum == Some(NewestAfter(newest, seqNum))
              && missingPackets == Updated(old(missingPackets), newest, seqNum)
              && Recorded(old(missingPackets), newest, seqNum, missingPackets)
      ensures newestInsertedSeqNum.Some? &&
              (old(newestInsertedSeqNum).None? || AheadOf(seqNum, old(newestInsertedSeqNum).value) ==>
                 newestInsertedSeqNum.value == seqNum)
      ensures old(WindowOk()) ==> (WindowOk() <==> !old(HalfJump(seqNum)))
    {
      WindowKept(missingPackets, newestInsertedSeqNum.GetOr(seqNum), seqNum);
      UpdatedIs(missingPackets, newestInsertedSeqNum.GetOr(seqNum), seqNum);
      if newestInsertedSeqNum.None? { newestInsertedSeqNum := Some(seqNum); }
      var newest := newestInsertedSeqNum.value;
      if AheadOf(seqNum, newest) {
        var oldSeqNum := Minus(seqNum, MAX_PADDING_AGE);
        missingPackets := set m | m in missingPackets && !AheadOf(oldSeqNum, m);
        if AheadOf(oldSeqNum, newest) { newest := oldSeqNum; }
        AddSkipped(newest, seqNum);
      } else {
        missingPackets := missingPackets - {seqNum};
      }
    }

    /** Records the numbers after `from` and before seqNum as missing. */
    method AddSkipped(from: SeqNum, seqNum: SeqNum)
      requires 1 <= ForwardDiff(from, seqNum) <= MAX_PADDING_AGE
      modifies this`newestInsertedSeqNum, this`missingPackets
      ensures newestInsertedSeqNum == Some(seqNum) && missingPackets == old(missingPackets) + Gap(from, seqNum)
    {
      var newest := Next(from);
      while AheadOf(seqNum, newest)
        invariant ForwardDiff(from, newest) + ForwardDiff(newest, seqNum) == ForwardDiff(from, seqNum)
        invariant 1 <= ForwardDiff(from, newest)
        invariant missingPackets == old(missingPackets) + Gap(from, newest)
        decreases ForwardDiff(newest, seqNum)
      {
        GapStep(from, newest);
        missingPackets := missingPackets + {newest};
        newest := Next(newest);
      }
      newestInsertedSeqNum := Some(newest);
    }

    /** Moves the packets from start to seqNum out of the ring and sets their frame flags. */
    method TakeFrame(start: SeqNum, seqNum: SeqNum) returns (f: seq<Packet>)
      requires Valid() && RunOf(buffer, start, seqNum)
      requires FlagsFree(buffer, start, ForwardDiff(start, seqNum) + 1)
      modifies this`buffer
      ensures Valid() && |f| == ForwardDiff(start, seqNum) + 1
      ensures Taking(old(buffer), buffer, start, |f|, f)
    {
      var endSeqNum := Next(seqNum);
      ghost var n := ForwardDiff(start, seqNum) + 1;
      f := [];
      var i := start;
      while i != endSeqNum
        invariant |f| <= n && i == Plus(start, |f|)
        invariant Taking(old(buffer), buffer, start, n, f)
        decreases n - |f|
      {
        TakingStep(old(buffer), buffer, start, n, f);
        PlusNext(start, |f|);
        var slot := Slot(i, |buffer|);
        var packet := buffer[slot].value;
        f := f + [packet.(isFirst := i == start, isLast := i == seqNum)];
        buffer := buffer[slot := None];
        i := Next(i);
      }
    }

    /** Hands out the frame whose last packet seqNum has just been marked, for codecs with
        a first-packet flag. */
    method HandOutFrame(seqNum: SeqNum, ghost before: Slots) returns (f: seq<Packet>)
      requires Valid() && Ring(before) && MarkedFrom(before, buffer, seqNum) && Potential(before, seqNum)
      requires At(before, seqNum).value.isLast && AllCodec(before, false) && SettledExcept(before, seqNum)
      modifies this`buffer, this`missingPackets
      ensures Valid() && SettledExcept(buffer, Next(seqNum))
      ensures HandedOne(false, old(buffer), old(missingPackets), spsPpsIdrIsH264Keyframe,
                        buffer, missingPackets, f, seqNum)
      ensures KeepsFlags(old(buffer), buffer) && At(buffer, seqNum).None?
    {
      ghost var marked := buffer;
      var start := SearchFirstPacket(buffer, seqNum, before);
      FlagsFreeChain(buffer, start, seqNum);
      f := TakeFrame(start, seqNum);
      FrameOfRun(marked, start, seqNum, f);
      ChainTaken(before, marked, start, seqNum, buffer, f);
      TakenKeepsFlags(marked, buffer, start, seqNum, |f|);
      missingPackets := set m | m in missingPackets && AheadOf(m, seqNum);
    }

    /** The same for H.264, where a frame may also be withheld: because of a bad header, or
        because it is a delta frame and a packet at or before its start is missing. */
    method HandOutH264Frame(seqNum: SeqNum) returns (r: Option<seq<Packet>>)
      requires Valid() && At(buffer, seqNum).Some? && AllCodec(buffer, true)
      modifies this`buffer, this`missingPackets
      ensures Valid()
      ensures r.Some? ==> HandedOne(true, old(buffer), old(missingPackets), spsPpsIdrIsH264Keyframe,
                                    buffer, missingPackets, r.value, seqNum)
      ensures r.None? ==> && missingPackets == old(missingPackets) && Conserved(old(buffer), buffer, [])
                          && SameRuns(old(buffer), buffer)
      ensures KeepsFlags(old(buffer), buffer) && (r.Some? ==> At(buffer, seqNum).None?)
      ensures r.Some? ==> WholeOf(old(buffer), seqNum, spsPpsIdrIsH264Keyframe, r.value)
      ensures r.None? <==> Withholds(old(buffer), old(missingPackets), spsPpsIdrIsH264Keyframe, seqNum)
    {
      var search := SearchTimestampRun(buffer, seqNum, spsPpsIdrIsH264Keyframe);
      if search.Abort? {
        ConservedSelf(buffer);
        return None;
      }
      r := HandOutRun(search.start, seqNum, search);
    }

    /** Hands out the run from start to seqNum, or withholds it. */
    method HandOutRun(start: SeqNum, seqNum: SeqNum, search: BackSearch) returns (r: Option<seq<Packet>>)
      requires Valid() && RunEndsAt(buffer, start, seqNum) && AllCodec(buffer, true) && !RunBad(buffer, seqNum)
      requires search.FrameFrom? && search.isKey == RunIsKey(buffer, start, seqNum, spsPpsIdrIsH264Keyframe)
      requires (search.width, search.height) == KeySize(buffer, start, seqNum, spsPpsIdrIsH264Keyframe)
      modifies this`buffer, this`missingPackets
      ensures Valid()
      ensures r.Some? ==> HandedOne(true, old(buffer), old(missingPackets), spsPpsIdrIsH264Keyframe,
                                    buffer, missingPackets, r.value, seqNum)
      ensures r.None? ==> && missingPackets == old(missingPackets) && Conserved(old(buffer), buffer, [])
                          && SameRuns(old(buffer), buffer)
      ensures KeepsFlags(old(buffer), buffer) && (r.Some? ==> At(buffer, seqNum).None?)
      ensures r.Some? ==> WholeOf(old(buffer), seqNum, spsPpsIdrIsH264Keyframe, r.value)
      ensures r.None? <==> Withholds(old(buffer), old(missingPackets), spsPpsIdrIsH264Keyframe, seqNum)
    {
      TypedRun(buffer, start, seqNum, search);
      SetFrameType(start, search);
      if !search.isKey && exists m :: m in missingPackets && !AheadOf(m, start) {
        H264Held(old(buffer), missingPackets, spsPpsIdrIsH264Keyframe, start, seqNum, search);
        return None;
      }
      var f := TakeTyped(start, seqNum, search, old(buffer));
      r := Some(f);
    }

    /** Takes the run, whose first packet of the ring buf has got its type, and forgets what is missing up to its
        end. */
    method TakeTyped(start: SeqNum, seqNum: SeqNum, ghost search: BackSearch, ghost buf: Slots) returns (f: seq<Packet>)
      requires Valid() && Ring(buf) && RunEndsAt(buf, start, seqNum) && AllCodec(buf, true) && !RunBad(buf, seqNum)
      requires search.FrameFrom? && search.isKey == RunIsKey(buf, start, seqNum, spsPpsIdrIsH264Keyframe)
      requires (search.width, search.height) == KeySize(buf, start, seqNum, spsPpsIdrIsH264Keyframe)
      requires Cell(buf, start).Some? && buffer == TypedSlots(buf, start, search)
      requires search.isKey || forall m :: m in missingPackets ==> AheadOf(m, start)
      modifies this`buffer, this`missingPackets
      ensures Valid()
      ensures exists s: SeqNum :: OutFrom(s, buf, old(missingPackets), spsPpsIdrIsH264Keyframe,
                                          buffer, missingPackets, f, seqNum)
    {
      TypedRun(buf, start, seqNum, search);
      f := TakeFrame(start, seqNum);
      missingPackets := set m | m in missingPackets && AheadOf(m, seqNum);
      H264Out(buf, buffer, old(missingPackets), spsPpsIdrIsH264Keyframe, start, seqNum, search, f, missingPackets);
    }

    /** Records on the first packet whether the frame is key, and a key frame's resolution. */
    method SetFrameType(start: SeqNum, search: BackSearch)
      requires Valid() && search.FrameFrom? && Cell(buffer, start).Some?
      modifies this`buffer
      ensures buffer == TypedSlots(old(buffer), start, search)
      ensures Valid()
    {
      var index := Slot(start, |buffer|);
      var packet := buffer[index].value;
      if search.isKey {
        packet := packet.(frameType := KeyFrame);
        if search.width > 0 && search.height > 0 {
          packet := packet.(width := search.width, height := search.height);
        }
      } else {
        packet := packet.(frameType := DeltaFrame);
      }
      buffer := buffer[index := Some(packet)];
    }

    /** Marks the packet seqNum, which continues its frame; if it ends the frame, hands it out.
        Only an H.264 frame can be withheld, which stops the search. */
    method ContinueFrame(seqNum: SeqNum, ghost h: bool) returns (f: seq<Packet>, stop: bool)
      requires Valid() && Potential(buffer, seqNum) && AllCodec(buffer, h)
      requires !h ==> SettledExcept(buffer, seqNum)
      modifies this`buffer, this`missingPackets
      ensures Valid() && OnlyFor(buffer, seqNum)
      ensures !h ==> !stop && SettledExcept(buffer, Next(seqNum))
      ensures f == [] ==> Conserved(old(buffer), buffer, []) && missingPackets == old(missingPackets)
      ensures f != [] ==> HandedOne(h, old(buffer), old(missingPackets), spsPpsIdrIsH264Keyframe,
                                    buffer, missingPackets, f, seqNum)
      ensures f != [] ==> At(old(buffer), seqNum).value.isLast
      ensures !h && f == [] ==> !At(old(buffer), seqNum).value.isLast
      ensures stop ==> f == []
      ensures stop <==> && h && At(old(buffer), seqNum).value.isLast
                        && exists marked :: && MarkedFrom(old(buffer), marked, seqNum)
                                            && Withholds(marked, old(missingPackets), spsPpsIdrIsH264Keyframe, seqNum)
      ensures KeepsFlags(old(buffer), buffer) && (!stop ==> PassedBy(buffer, seqNum))
      ensures stop ==> StopsAt(buffer, missingPackets, spsPpsIdrIsH264Keyframe, seqNum)
    {
      f, stop := [], false;
      var index := Slot(seqNum, |buffer|);
      MarkKeeps(buffer, seqNum);
      buffer := buffer[index := Some(buffer[index].value.(continuous := true))];
      ghost var marked, missing := buffer, missingPackets;
      ConservedKeeps(old(buffer), marked, [], h);
      if !buffer[index].value.isLast {
        if !h { MarkStep(old(buffer), seqNum, buffer); }
        return;
      }
      if buffer[index].value.codec.H264? {
        var r := HandOutH264Frame(seqNum);
        if r.None? {
          WithheldStep(old(buffer), marked, buffer, missing, spsPpsIdrIsH264Keyframe, seqNum);
          return [], true;
        }
        f := r.value;
      } else {
        f := HandOutFrame(seqNum, old(buffer));
      }
      HandedStep(h, old(buffer), marked, missing, spsPpsIdrIsH264Keyframe, buffer, missingPackets, f, seqNum);
    }

    /** Goes on from seqNum while packets continue their frames and hands out every frame this
        completes. */
    method FindFrames(seqNum: SeqNum, ghost h: bool)
      returns (found: seq<Packet>, ghost frames: seq<seq<Packet>>)
      requires Valid() && AllCodec(buffer, h) && (!h ==> SettledExcept(buffer, seqNum))
      modifies this`buffer, this`missingPackets
      ensures Valid() && AllCodec(buffer, h) && (!h ==> Settled(buffer))
      ensures Handed(h, old(buffer), old(missingPackets), spsPpsIdrIsH264Keyframe,
                     buffer, missingPackets, found, frames)
      ensures Searched(buffer, missingPackets, spsPpsIdrIsH264Keyframe, seqNum)
      ensures FlagsKept(h, old(buffer), buffer, frames)
    {
      found, frames := [], [];
      var current := seqNum;
      var i := 0;
      while i < |buffer| && PotentialNewFrame(current)
        invariant Valid() && i <= |buffer| && current == Plus(seqNum, i)
        invariant AllCodec(buffer, h) && (!h ==> SettledExcept(buffer, current))
        invariant (i > 0 ==> OnlyFor(buffer, seqNum)) && Walked(buffer, seqNum, i)
        invariant FlagsKept(h, old(buffer), buffer, frames)
        invariant Handed(h, old(buffer), old(missingPackets), spsPpsIdrIsH264Keyframe,
                         buffer, missingPackets, found, frames)
        decreases |buffer| - i
      {
        ghost var before := buffer;
        var stop;
        found, stop, frames := FindNext(current, found, h, seqNum, old(buffer), old(missingPackets), frames);
        WalkedOn(before, buffer, seqNum, i);
        if stop {
          assert SearchedTo(buffer, missingPackets, spsPpsIdrIsH264Keyframe, seqNum, i);
          return;
        }
        PlusNext(seqNum, i);
        current := Next(current);
        i := i + 1;
      }
      if !h { ChainExhausted(buffer, seqNum, current, i); }
      assert SearchedTo(buffer, missingPackets, spsPpsIdrIsH264Keyframe, seqNum, i);
    }

    /** One turn of FindFrames, which started at `from` with the ring buf0. */
    method FindNext(current: SeqNum, found0: seq<Packet>, ghost h: bool, ghost from: SeqNum, ghost buf0: Slots,
                    ghost missing0: set<SeqNum>, ghost frames0: seq<seq<Packet>>)
      returns (found: seq<Packet>, stop: bool, ghost frames: seq<seq<Packet>>)
      requires Valid() && Potential(buffer, current) && AllCodec(buffer, h) && (!h ==> SettledExcept(buffer, current))
      requires Handed(h, buf0, missing0, spsPpsIdrIsH264Keyframe, buffer, missingPackets, found0, frames0)
      requires FlagsKept(h, buf0, buffer, frames0)
      modifies this`buffer, this`missingPackets
      ensures Valid() && AllCodec(buffer, h) && |buffer| == |old(buffer)|
      ensures !h ==> !stop && SettledExcept(buffer, Next(current))
      ensures OnlyFor(buffer, current) && (OnlyFor(old(buffer), from) ==> OnlyFor(buffer, from))
      ensures KeepsFlags(old(buffer), buffer) && (!stop ==> PassedBy(buffer, current))
      ensures stop ==> StopsAt(buffer, missingPackets, spsPpsIdrIsH264Keyframe, current)
      ensures Handed(h, buf0, missing0, spsPpsIdrIsH264Keyframe, buffer, missingPackets, found, frames)
      ensures FlagsKept(h, buf0, buffer, frames)
    {
      var f;
      f, stop := ContinueFrame(current, h);
      FoundStep(h, buf0, missing0, spsPpsIdrIsH264Keyframe, old(buffer), old(missingPackets), found0, frames0,
                buffer, missingPackets, f, current, from);
      FlagsKeptMore(h, buf0, old(buffer), found0, frames0, buffer, f, current);
      found, frames := found0 + f, if f == [] then frames0 else frames0 + [f];
    }

    /** One codec kind is stored and, unless it is H.264, every packet is marked as it should be. */
    ghost predicate Ready(h: bool)
      reads this
    {
      |buffer| > 0 && AllCodec(buffer, h) && (!h ==> Settled(buffer))
    }

    /** Packets older than the point explicitly cleared to are dropped. */
    predicate Ignores(seqNum: SeqNum)
      reads this
    {
      firstPacketReceived && AheadOf(firstSeqNum, seqNum) && isClearedToFirstSeqNum
    }

    /** Stores a packet and hands out the frames it completes. `full` is the ring with the packet
        in it, before frames are taken out. */
    method InsertPacket(packet: Packet)
      returns (result: InsertResult, ghost full: Slots, ghost frames: seq<seq<Packet>>)
      requires Valid() && Ready(packet.codec.H264?)
      modifies this
      ensures Valid() && Ready(packet.codec.H264?) && spsPpsIdrIsH264Keyframe == old(spsPpsIdrIsH264Keyframe)
      ensures |buffer| >= |old(buffer)|
      // An old packet or a duplicate is dropped,
      ensures old(Ignores(packet.seqNum)) || At(old(buffer), packet.seqNum).Some? ==>
                && result == InsertResult([], false) && buffer == old(buffer) && missingPackets == old(missingPackets)
                && newestInsertedSeqNum == old(newestInsertedSeqNum)
      // a packet that collides even in the largest ring empties the buffer,
      ensures result.bufferCleared <==> !old(Ignores(packet.seqNum)) && At(old(buffer), packet.seqNum).None? &&
                                        Crowded(old(buffer), packet.seqNum, maxSize)
      ensures result.bufferCleared ==> && result.packets == [] && Empty(buffer) && !isClearedToFirstSeqNum
                                       && missingPackets == {} && newestInsertedSeqNum.None? && !firstPacketReceived
      // and any other packet is stored, without losing one, before frames are handed out.
      ensures old(Accepts(packet.seqNum)) ==>
                && FullWith(old(buffer), full, packet)
                && newestInsertedSeqNum ==
                   Some(NewestAfter(old(newestInsertedSeqNum).GetOr(packet.seqNum), packet.seqNum))
                && Handed(packet.codec.H264?, full,
                          Updated(old(missingPackets), old(newestInsertedSeqNum).GetOr(packet.seqNum), packet.seqNum),
                          spsPpsIdrIsH264Keyframe, buffer, missingPackets, result.packets, frames)
                && Searched(buffer, missingPackets, spsPpsIdrIsH264Keyframe, packet.seqNum)
                && FlagsKept(packet.codec.H264?, full, buffer, frames)
      ensures old(WindowOk() && !HalfJump(packet.seqNum)) ==> WindowOk()
      ensures !result.bufferCleared ==>
                && firstPacketReceived && isClearedToFirstSeqNum == old(isClearedToFirstSeqNum)
                && firstSeqNum == (if old(firstPacketReceived) &&
                                      (!AheadOf(old(firstSeqNum), packet.seqNum) || old(isClearedToFirstSeqNum))
                                   then old(firstSeqNum) else packet.seqNum)
    {
      result, full, frames := InsertResult([], false), buffer, [];
      var seqNum := packet.seqNum;
      if !firstPacketReceived {
        firstSeqNum := seqNum;
        firstPacketReceived := true;
      } else if AheadOf(firstSeqNum, seqNum) {
        if isClearedToFirstSeqNum { return; }
        firstSeqNum := seqNum;
      }
      if buffer[Slot(seqNum, |buffer|)].Some? {
        if buffer[Slot(seqNum, |buffer|)].value.seqNum == seqNum { return; }
        MakeRoom(seqNum);
        if buffer[Slot(seqNum, |buffer|)].Some? {
          ClearInternal();
          return InsertResult([], true), buffer, [];
        }
      } else {
        NotCrowded(buffer, seqNum, maxSize);
      }
      result, full, frames := StorePacket(packet, old(buffer));
    }

    /** Stores a packet in its free slot and hands out the frames it completes; buf0 is the ring
        before it was grown for this packet. */
    method StorePacket(packet: Packet, ghost buf0: Slots)
      returns (result: InsertResult, ghost full: Slots, ghost frames: seq<seq<Packet>>)
      requires Valid() && Ring(buf0) && |buf0| <= |buffer| && AllCodec(buffer, packet.codec.H264?)
      requires Cell(buffer, packet.seqNum).None? && forall s: SeqNum :: At(buffer, s) == At(buf0, s)
      requires packet.codec.OtherCodec? ==> Settled(buf0)
      modifies this`buffer, this`missingPackets, this`newestInsertedSeqNum
      ensures Valid() && Ready(packet.codec.H264?) && !result.bufferCleared
      ensures FullWith(buf0, full, packet)
      ensures newestInsertedSeqNum == Some(NewestAfter(old(newestInsertedSeqNum).GetOr(packet.seqNum), packet.seqNum))
      ensures old(WindowOk() && !HalfJump(packet.seqNum)) ==> WindowOk()
      ensures Handed(packet.codec.H264?, full,
                     Updated(old(missingPackets), old(newestInsertedSeqNum).GetOr(packet.seqNum), packet.seqNum),
                     spsPpsIdrIsH264Keyframe, buffer, missingPackets, result.packets, frames)
      ensures Searched(buffer, missingPackets, spsPpsIdrIsH264Keyframe, packet.seqNum)
      ensures FlagsKept(packet.codec.H264?, full, buffer, frames)
    {
      StoreStep(buf0, buffer, packet);
      buffer := buffer[Slot(packet.seqNum, |buffer|) := Some(packet.(continuous := false))];
      full := buffer;
      if packet.codec.OtherCodec? { SettledStore(buf0, full, packet); }
      UpdateMissingPackets(packet.seqNum);
      var packets;
      packets, frames := FindFrames(packet.seqNum, packet.codec.H264?);
      result := InsertResult(packets, false);
    }

    /** Grows the ring until the slot of seqNum is free or the ring has its largest size. */
    method MakeRoom(seqNum: SeqNum)
      requires Valid() && At(buffer, seqNum).None? && Cell(buffer, seqNum).Some?
      modifies this`buffer
      ensures Valid() && |buffer| >= |old(buffer)|
      ensures forall s: SeqNum :: At(buffer, s) == At(old(buffer), s)
      ensures forall h :: AllCodec(old(buffer), h) ==> AllCodec(buffer, h)
      ensures Cell(buffer, seqNum).Some? <==> Crowded(old(buffer), seqNum, maxSize)
    {
      while true
        invariant Valid() && |buffer| >= |old(buffer)| && Cell(buffer, seqNum).Some?
        invariant forall s: SeqNum :: At(buffer, s) == At(old(buffer), s)
        invariant forall h :: AllCodec(old(buffer), h) ==> AllCodec(buffer, h)
        decreases maxSize - |buffer|
      {
        var expanded := ExpandBufferSize();
        if !expanded || buffer[Slot(seqNum, |buffer|)].None? {
          CrowdedAlike(old(buffer), buffer, seqNum, maxSize);
          CrowdedAlike(buffer, old(buffer), seqNum, maxSize);
          if Cell(buffer, seqNum).None? { NotCrowded(buffer, seqNum, maxSize); }
          return;
        }
      }
    }

    /** Padding fills a gap in the numbers; the packet after it may now complete frames. */
    method InsertPadding(seqNum: SeqNum, ghost h: bool)
      returns (result: InsertResult, ghost frames: seq<seq<Packet>>)
      requires Valid() && Ready(h)
      modifies this`buffer, this`missingPackets, this`newestInsertedSeqNum
      ensures Valid() && Ready(h) && !result.bufferCleared
      ensures newestInsertedSeqNum == Some(NewestAfter(old(newestInsertedSeqNum).GetOr(seqNum), seqNum))
      ensures old(WindowOk() && !HalfJump(seqNum)) ==> WindowOk()
      ensures Handed(h, old(buffer),
                     Updated(old(missingPackets), old(newestInsertedSeqNum).GetOr(seqNum), seqNum),
                     spsPpsIdrIsH264Keyframe, buffer, missingPackets, result.packets, frames)
      ensures Searched(buffer, missingPackets, spsPpsIdrIsH264Keyframe, Next(seqNum))
      ensures FlagsKept(h, old(buffer), buffer, frames)
    {
      UpdateMissingPackets(seqNum);
      var packets;
      packets, frames := FindFrames(Next(seqNum), h);
      result := InsertResult(packets, false);
    }

    /** The packet is not old, not a duplicate, and fits into the largest ring. */
    ghost predicate Accepts(seqNum: SeqNum)
      requires |buffer| > 0 && maxSize > 0
      reads this
    {
      !Ignores(seqNum) && At(buffer, seqNum).None? && !Crowded(buffer, seqNum, maxSize)
    }

    method ClearInternal()
      requires Valid()
      modifies this
      ensures Valid() && Ready(true) && Ready(false) && |buffer| == |old(buffer)| && Empty(buffer)
      ensures !firstPacketReceived && !isClearedToFirstSeqNum && newestInsertedSeqNum.None? && missingPackets == {}
      ensures spsPpsIdrIsH264Keyframe == old(spsPpsIdrIsH264Keyframe)
    {
      var i := 0;
      while i < |buffer|
        invariant i <= |buffer| == |old(buffer)|
        invariant forall j :: 0 <= j < i ==> buffer[j].None?
        invariant spsPpsIdrIsH264Keyframe == old(spsPpsIdrIsH264Keyframe)
      {
        buffer := buffer[i := None];
        i := i + 1;
      }
      firstPacketReceived := false;
      isClearedToFirstSeqNum := false;
      newestInsertedSeqNum := None;
      missingPackets := {};
    }

    /** The clear acts: packets have been received and seqNum is not cleared past already. */
    predicate ClearActs(seqNum: SeqNum)
      reads this
    {
      firstPacketReceived && !(isClearedToFirstSeqNum && AheadOf(firstSeqNum, seqNum))
    }

    /** Number of slots the clear visits. */
    function ClearSpan(seqNum: SeqNum): nat
      reads this
    {
      var diff := ForwardDiff(firstSeqNum, Next(seqNum));
      if diff < |buffer| then diff else |buffer|
    }

    /** Drops the packets up to and including seqNum. */
    method ClearTo(seqNum: SeqNum)
      requires Valid()
      modifies this`buffer, this`firstSeqNum, this`isClearedToFirstSeqNum, this`missingPackets
      ensures Valid() && forall h :: AllCodec(old(buffer), h) ==> AllCodec(buffer, h)
      ensures !old(ClearActs(seqNum)) ==>
                && buffer == old(buffer) && firstSeqNum == old(firstSeqNum) && missingPackets == old(missingPackets)
                && isClearedToFirstSeqNum == old(isClearedToFirstSeqNum)
      ensures old(ClearActs(seqNum)) ==>
                && |buffer| == |old(buffer)| && firstSeqNum == Next(seqNum) && isClearedToFirstSeqNum
                && (forall s: SeqNum :: At(buffer, s) ==
                                        if Drops(old(buffer), old(firstSeqNum), old(ClearSpan(seqNum)), Next(seqNum), s)
                                        then None else At(old(buffer), s))
                && missingPackets == Trimmed(old(missingPackets), Next(seqNum))
      ensures old(WindowOk()) ==> WindowOk()
      ensures old(ClearActs(seqNum)) && Settled(old(buffer)) ==>
                (Settled(buffer) <==>
                 !CutsFrame(old(buffer), old(firstSeqNum), old(ClearSpan(seqNum)), Next(seqNum)))
    {
      if isClearedToFirstSeqNum && AheadOf(firstSeqNum, seqNum) { return; }
      if !firstPacketReceived { return; }
      var next := Next(seqNum);
      var diff := ForwardDiff(firstSeqNum, next);
      var iterations := if diff < |buffer| then diff else |buffer|;
      var i := 0;
      while i < iterations
        invariant i <= iterations && firstSeqNum == Plus(old(firstSeqNum), i)
        invariant |buffer| == |old(buffer)|
        invariant ClearedSlots(old(buffer), buffer, old(firstSeqNum), i, next)
        invariant missingPackets == old(missingPackets)
      {
        ClearOne(old(buffer), buffer, old(firstSeqNum), i, next);
        PlusNext(old(firstSeqNum), i);
        var slot := Slot(firstSeqNum, |buffer|);
        if buffer[slot].Some? && AheadOf(next, buffer[slot].value.seqNum) {
          buffer := buffer[slot := None];
        }
        firstSeqNum := Next(firstSeqNum);
        i := i + 1;
      }
      ClearedSettled(old(buffer), buffer, old(firstSeqNum), i, next);
      firstSeqNum := next;
      isClearedToFirstSeqNum := true;
      missingPackets := set m | m in missingPackets &&
                                (AheadOf(m, next) ||
                                 forall q :: q in missingPackets && !AheadOf(q, next) ==> !AheadOf(q, m));
    }

    method Clear()
      requires Valid()
      modifies this
      ensures Valid() && Ready(true) && Ready(false) && |buffer| == |old(buffer)| && Empty(buffer)
      ensures !firstPacketReceived && !isClearedToFirstSeqNum && newestInsertedSeqNum.None? && missingPackets == {}
      ensures spsPpsIdrIsH264Keyframe == old(spsPpsIdrIsH264Keyframe)
    {
      ClearInternal();
    }

    method ForceSpsPpsIdrIsH264Keyframe()
      modifies this`spsPpsIdrIsH264Keyframe
      ensures spsPpsIdrIsH264Keyframe
    {
      spsPpsIdrIsH264Keyframe := true;
    }
  }
}
