/** The packets of a video packet buffer as a ring of slots, the continuity
    invariant that makes frame detection sound and complete, and the value-level
    lemmas behind one step of frame detection. */
module PacketRing {
  import opened Options
  import opened SeqNums
  import opened FrameTypes

  datatype Codec = H264 | OtherCodec
  datatype Nalu = Sps | Pps | Idr | OtherNalu

  /** nalus is None when the packet carries no H.264 type header. */
  datatype Packet = Packet(
    seqNum: SeqNum, timestamp: nat, codec: Codec, isFirst: bool, isLast: bool,
    nalus: Option<seq<Nalu>>, frameType: FrameType, width: int, height: int,
    payload: seq<nat>, continuous: bool)

  type Slots = s: seq<Option<Packet>> | |s| > 0 witness [None]

  /** What the buffer may never alter. For H.264 the frame flags, type and resolution are
      rewritten by design; for any other codec everything but the internal mark is kept. */
  function Body(p: Packet): Packet {
    if p.codec.H264? then
      p.(continuous := false, isFirst := false, isLast := false,
      frameType := EmptyFrame, width := 0, height := 0)
    else p.(continuous := false)
  }

  /** The slot of sequence number s. */
  function Cell(buf: Slots, s: SeqNum): Option<Packet>
  { buf[Slot(s, |buf|)] }

  /** The slot k places after that of start. */
  function Nth(buf: Slots, start: SeqNum, k: nat): Option<Packet>
  { Cell(buf, Plus(start, k)) }

  /** The packet stored under sequence number s, if any. */
  function At(buf: Slots, s: SeqNum): Option<Packet>
  {
    var e := Cell(buf, s);
    if e.Some? && e.value.seqNum == s then e else None
  }

  /** Every packet sits in the slot of its own sequence number. */
  ghost predicate Ring(buf: Slots) {
    && PowerOfTwo(|buf|) && |buf| <= 32768
    && forall i :: 0 <= i < |buf| && buf[i].Some? ==> Slot(buf[i].value.seqNum, |buf|) == i
  }

  ghost predicate AllCodec(buf: Slots, h264: bool) {
    forall i :: 0 <= i < |buf| && buf[i].Some? ==> buf[i].value.codec.H264? == h264
  }

  ghost predicate Empty(buf: Slots) { forall i :: 0 <= i < |buf| ==> buf[i].None? }

  /** The ring buf0 was split, packet by packet, into the ring buf and the packets found. */
  ghost predicate Conserved(buf0: Slots, buf: Slots, found: seq<Packet>) {
    && Ring(buf0) && Ring(buf) && |buf| == |buf0|
    && (forall s: SeqNum :: At(buf, s).Some? ==>
                              At(buf0, s).Some? && Body(At(buf, s).value) == Body(At(buf0, s).value))
    && (forall s: SeqNum :: At(buf0, s).Some? && At(buf, s).None? ==> Listed(found, s))
    && (forall k :: 0 <= k < |found| ==> Moved(buf0, buf, found[k]))
    && (forall j, k :: 0 <= j < k < |found| ==> found[j].seqNum != found[k].seqNum)
  }

  ghost predicate Listed(ps: seq<Packet>, s: SeqNum) { exists k :: 0 <= k < |ps| && ps[k].seqNum == s }

  /** p was stored in buf0 and no longer is in buf. */
  ghost predicate Moved(buf0: Slots, buf: Slots, p: Packet)
  {
    && At(buf0, p.seqNum).Some? && Body(At(buf0, p.seqNum).value) == Body(p)
    && At(buf, p.seqNum).None?
  }

  ghost function Flatten(frames: seq<seq<Packet>>): seq<Packet> {
    if frames == [] then [] else Flatten(frames[..|frames| - 1]) + frames[|frames| - 1]
  }

  // ---- Continuity -------------------------------------------------------------

  ghost predicate PrevLinked(buf: Slots, s: SeqNum)
  {
    && At(buf, s).Some? && At(buf, Prev(s)).Some?
    && At(buf, Prev(s)).value.timestamp == At(buf, s).value.timestamp
    && At(buf, Prev(s)).value.continuous
  }

  /** All packets of the frame up to s are here. */
  ghost predicate Potential(buf: Slots, s: SeqNum)
  {
    At(buf, s).Some? && (At(buf, s).value.isFirst || PrevLinked(buf, s))
  }

  /** A marked packet really continues its frame, and no finished frame is left behind. */
  ghost predicate Sound(buf: Slots, s: SeqNum)
  {
    At(buf, s).Some? && At(buf, s).value.continuous ==> Potential(buf, s) && !At(buf, s).value.isLast
  }

  ghost predicate Marked(buf: Slots, s: SeqNum)
  {
    Potential(buf, s) ==> At(buf, s).value.continuous
  }

  ghost predicate Settled(buf: Slots)
  {
    forall s: SeqNum :: Sound(buf, s) && Marked(buf, s)
  }

  /** Settled, except that the packet at x may not have been looked at yet. */
  ghost predicate SettledExcept(buf: Slots, x: SeqNum)
  {
    forall s: SeqNum :: Sound(buf, s) && (s != x ==> Marked(buf, s))
  }

  // ---- Frames -----------------------------------------------------------------

  /** Gap-free consecutive sequence numbers, one timestamp, flags exactly at the two ends. */
  ghost predicate IsFrame(f: seq<Packet>) {
    && |f| > 0
    && forall k :: 0 <= k < |f| ==>
                     && f[k].seqNum == Plus(f[0].seqNum, k)
                     && f[k].timestamp == f[0].timestamp
                     && f[k].isFirst == (k == 0)
                     && f[k].isLast == (k == |f| - 1)
  }

  predicate Carries(p: Packet, t: Nalu) { p.nalus.Some? && t in p.nalus.value }

  ghost predicate FrameHas(f: seq<Packet>, t: Nalu) { exists k :: 0 <= k < |f| && Carries(f[k], t) }

  /** An IDR makes a key frame; when forced, only together with SPS and PPS. */
  ghost predicate KeyRun(f: seq<Packet>, forced: bool) {
    FrameHas(f, Idr) && (forced ==> FrameHas(f, Sps) && FrameHas(f, Pps))
  }

  /** s lies on the way from start forward to x. */
  predicate Between(start: SeqNum, x: SeqNum, s: SeqNum) { ForwardDiff(start, s) <= ForwardDiff(start, x) }

  /** Packets of one timestamp lie less than half a ring apart. */
  ghost predicate SpanOk(buf: Slots) {
    forall i, j :: 0 <= i < |buf| && 0 <= j < |buf| && buf[i].Some? && buf[j].Some? &&
                   buf[i].value.timestamp == buf[j].value.timestamp ==>
                     Near(buf[i].value.seqNum, buf[j].value.seqNum, |buf|)
  }

  predicate Near(a: SeqNum, b: SeqNum, n: nat) { 2 * ForwardDiff(a, b) < n || 2 * ForwardDiff(b, a) < n }

  // ---- Lemmas on rings --------------------------------------------------------

  lemma RingSizeOf(buf: Slots)
    requires Ring(buf)
    ensures RingSize(|buf|)
  {
    PowerOfTwoIsRingSize(|buf|);
  }

  lemma SameSlotClose(a: SeqNum, b: SeqNum, n: nat)
    requires RingSize(n) && Slot(a, n) == Slot(b, n) && ForwardDiff(a, b) < n
    ensures a == b
  {
    SlotPlus(a, ForwardDiff(a, b), n);
    assert Plus(a, ForwardDiff(a, b)) == b;
  }

  lemma ListedAppend(a: seq<Packet>, b: seq<Packet>, s: SeqNum)
    ensures Listed(a + b, s) <==> Listed(a, s) || Listed(b, s)
  {
    if Listed(a, s) {
      var k :| 0 <= k < |a| && a[k].seqNum == s;
      assert (a + b)[k].seqNum == s;
    }
    if Listed(b, s) {
      var k :| 0 <= k < |b| && b[k].seqNum == s;
      assert (a + b)[|a| + k].seqNum == s;
    }
  }

  lemma ConservedMore(buf0: Slots, buf: Slots, rest: Slots, found: seq<Packet>, f: seq<Packet>)
    requires Conserved(buf0, buf, found) && Conserved(buf, rest, f)
    ensures Conserved(buf0, rest, found + f)
  {
    var all := found + f;
    forall s: SeqNum | At(buf0, s).Some? && At(rest, s).None?
      ensures Listed(all, s)
    {
      ListedAppend(found, f, s);
    }
    forall k | 0 <= k < |all|
      ensures Moved(buf0, rest, all[k])
    {
      if k < |found| {
        assert Moved(buf0, buf, found[k]);
      } else {
        assert Moved(buf, rest, f[k - |found|]);
      }
    }
    forall j, k | 0 <= j < k < |all|
      ensures all[j].seqNum != all[k].seqNum
    {
      if j < |found| <= k {
        assert Moved(buf0, buf, found[j]) && Moved(buf, rest, f[k - |found|]);
      }
    }
  }

  lemma ConservedSelf(buf: Slots)
    requires Ring(buf)
    ensures Conserved(buf, buf, [])
  {
  }

  /** Rewriting a slot without touching the packet's body moves nothing. */
  lemma ConservedRewrite(buf: Slots, i: nat, p: Packet)
    requires Ring(buf) && i < |buf| && buf[i].Some? && Body(buf[i].value) == Body(p)
    ensures Conserved(buf, buf[i := Some(p)], [])
  {
    var after := buf[i := Some(p)];
    assert p.seqNum == buf[i].value.seqNum;
    forall s: SeqNum ensures At(after, s) == if s == p.seqNum then Some(p) else At(buf, s) { }
  }

  /** What is left of a ring keeps its codec and its spread of timestamps. */
  lemma ConservedKeeps(buf0: Slots, buf: Slots, found: seq<Packet>, h: bool)
    requires Conserved(buf0, buf, found)
    ensures SpanOk(buf0) ==> SpanOk(buf)
    ensures AllCodec(buf0, h) ==> AllCodec(buf, h)
  {
    forall i | 0 <= i < |buf| && buf[i].Some?
      ensures && buf0[i].Some? && buf0[i].value.seqNum == buf[i].value.seqNum
              && buf0[i].value.timestamp == buf[i].value.timestamp && buf0[i].value.codec == buf[i].value.codec
    {
      assert At(buf, buf[i].value.seqNum).Some?;
    }
  }

  /** Emptying a slot of a ring moves exactly its packet. */
  lemma ConservedTake(buf: Slots, i: nat, p: Packet)
    requires Ring(buf) && i < |buf| && buf[i].Some? && Body(buf[i].value) == Body(p)
    ensures Conserved(buf, buf[i := None], [p])
  {
    assert [p][0].seqNum == p.seqNum;
    forall s: SeqNum | At(buf, s).Some? && At(buf[i := None], s).None?
      ensures Listed([p], s)
    {
      assert [p][0].seqNum == s;
    }
  }

  /** The first i slots of buf have been moved into the larger ring nb. */
  ghost predicate Rehashed(buf: Slots, i: nat, nb: Slots)
    requires i <= |buf|
  {
    && (forall j :: 0 <= j < |nb| && nb[j].Some? ==>
                      && Slot(nb[j].value.seqNum, |nb|) == j
                      && Slot(nb[j].value.seqNum, |buf|) < i
                      && buf[Slot(nb[j].value.seqNum, |buf|)] == nb[j])
    && (forall j :: 0 <= j < i && buf[j].Some? ==> nb[Slot(buf[j].value.seqNum, |nb|)] == buf[j])
  }

  /** Packets from different slots never collide in the doubled ring. */
  lemma RehashStep(buf: Slots, i: nat, nb: Slots)
    requires Ring(buf) && |nb| == 2 * |buf| && i < |buf| && Rehashed(buf, i, nb)
    ensures buf[i].None? ==> Rehashed(buf, i + 1, nb)
    ensures buf[i].Some? ==> var slot := Slot(buf[i].value.seqNum, |nb|);
                             nb[slot].None? && Rehashed(buf, i + 1, nb[slot := buf[i]])
  {
    if buf[i].Some? {
      var slot := Slot(buf[i].value.seqNum, |nb|);
      SlotInDoubledRing(buf[i].value.seqNum, |buf|);
      if nb[slot].Some? {
        SlotInDoubledRing(nb[slot].value.seqNum, |buf|);
        assert false;
      }
      forall j | 0 <= j < i && buf[j].Some?
        ensures Slot(buf[j].value.seqNum, |nb|) != slot
      {
        SlotInDoubledRing(buf[j].value.seqNum, |buf|);
      }
    }
  }

  lemma RehashDone(buf: Slots, nb: Slots)
    requires Ring(buf) && |nb| == 2 * |buf| <= 32768 && PowerOfTwo(|nb|) && Rehashed(buf, |buf|, nb)
    ensures Ring(nb) && forall s: SeqNum :: At(nb, s) == At(buf, s)
    ensures forall h :: AllCodec(buf, h) ==> AllCodec(nb, h)
  {
  }

  // ---- Lemmas on continuity ---------------------------------------------------

  /** Marking a continuing packet that does not end its frame passes the duty on to its successor. */
  lemma MarkStep(buf: Slots, x: SeqNum, marked: Slots)
    requires Ring(buf) && SettledExcept(buf, x) && Potential(buf, x) && !At(buf, x).value.isLast
    requires marked == buf[Slot(x, |buf|) := Some(At(buf, x).value.(continuous := true))]
    ensures Ring(marked) && SettledExcept(marked, Next(x))
  {
    MarkedAt(buf, x, marked);
    forall s: SeqNum ensures Sound(marked, s) && (s != Next(x) ==> Marked(marked, s)) {
      MarkStepAt(buf, x, marked, s);
    }
  }

  lemma MarkedAt(buf: Slots, x: SeqNum, marked: Slots)
    requires Ring(buf) && At(buf, x).Some?
    requires marked == buf[Slot(x, |buf|) := Some(At(buf, x).value.(continuous := true))]
    ensures Ring(marked) && SameButMark(buf, x, marked)
  {
  }

  /** marked finds what buf finds, with the packet at x marked. */
  ghost predicate SameButMark(buf: Slots, x: SeqNum, marked: Slots) {
    && |buf| == |marked| > 0 && At(buf, x).Some?
    && forall s: SeqNum :: At(marked, s) == if s == x then Some(At(buf, x).value.(continuous := true)) else At(buf, s)
  }

  lemma MarkStepAt(buf: Slots, x: SeqNum, marked: Slots, s: SeqNum)
    requires SameButMark(buf, x, marked) && SettledExcept(buf, x) && Potential(buf, x) && !At(buf, x).value.isLast
    ensures Sound(marked, s) && (s != Next(x) ==> Marked(marked, s))
  {
    assert Sound(buf, s) && (s != x ==> Marked(buf, s));
    assert s != Next(x) ==> Prev(s) != x;
  }

  /** Taking a finished frame start..x out leaves a settled ring, up to the packet after it. */
  lemma TakeStep(buf: Slots, x: SeqNum, start: SeqNum, rest: Slots)
    requires Ring(buf) && SettledExcept(buf, x) && Potential(buf, x) && At(buf, x).value.isLast
    requires |rest| == |buf| && ForwardDiff(start, x) < 65535
    requires forall s: SeqNum :: At(rest, s) == if Between(start, x, s) then None else At(buf, s)
    ensures SettledExcept(rest, Next(x))
  {
    forall s: SeqNum
      ensures Sound(rest, s) && (s != Next(x) ==> Marked(rest, s))
    {
      assert Sound(buf, s) && (s != x ==> Marked(buf, s));
      assert Sound(buf, Prev(s));
      if !Between(start, x, s) && s != Next(x) {
        assert !Between(start, x, Prev(s));
      }
    }
  }

  /** Walking back over marked packets that do not start the frame, the ring cannot be exhausted:
      the walk meets the first packet before it comes round to its own slot. */
  lemma WalkMeetsFirst(buf: Slots, x: SeqNum, start: SeqNum)
    requires Ring(buf) && SettledExcept(buf, x) && Potential(buf, x)
    requires ForwardDiff(start, x) + 1 == |buf|
    requires At(buf, start).Some? && (start != x ==> At(buf, start).value.continuous)
    ensures At(buf, start).value.isFirst
  {
    RingSizeOf(buf);
    SlotPlus(Prev(start), |buf|, |buf|);
    assert Plus(Prev(start), |buf|) == x;
    assert Sound(buf, start);
  }

  /** Nothing complete is held back: a settled ring stores no first-to-last run of one
      timestamp on consecutive sequence numbers. */
  lemma {:induction false} NothingCompleteHeld(buf: Slots, start: SeqNum, n: nat)
    requires Settled(buf) && At(buf, start).Some? && At(buf, start).value.isFirst
    requires forall k :: 0 <= k <= n ==>
                           && At(buf, Plus(start, k)).Some?
                           && At(buf, Plus(start, k)).value.timestamp == At(buf, start).value.timestamp
    ensures At(buf, Plus(start, n)).value.continuous && !At(buf, Plus(start, n)).value.isLast
  {
    assert Sound(buf, Plus(start, n)) && Marked(buf, Plus(start, n));
    if n == 0 {
      assert Plus(start, 0) == start;
    } else {
      NothingCompleteHeld(buf, start, n - 1);
      PlusNext(start, n - 1);
    }
  }

  /** When packets of one timestamp lie close together, a run of occupied slots of that
      timestamp is a run of consecutive sequence numbers. */
  lemma SpanRun(buf: Slots, x: SeqNum, start: SeqNum, s: SeqNum)
    requires Ring(buf) && SpanOk(buf) && At(buf, x).Some?
    requires ForwardDiff(start, x) < |buf| && Between(start, x, s)
    requires forall t: SeqNum :: Between(start, x, t) ==>
                                   && Cell(buf, t).Some?
                                   && Cell(buf, t).value.timestamp == At(buf, x).value.timestamp
    ensures At(buf, s).Some?
  {
    var n := |buf|;
    RingSizeOf(buf);
    var d := ForwardDiff(s, x);
    if 2 * d < n {
      SlotHolds(buf, x, s);
    } else {
      var h := n / 2;
      assert n % 2 == 0;
      var t: SeqNum := if x >= h then x - h else x - h + 65536;
      assert Between(start, x, t);
      SlotHolds(buf, x, t);
    }
  }

  lemma SlotHolds(buf: Slots, x: SeqNum, t: SeqNum)
    requires Ring(buf) && SpanOk(buf) && At(buf, x).Some? && RingSize(|buf|)
    requires 2 * ForwardDiff(t, x) < |buf| || (2 * ForwardDiff(t, x) == |buf| && |buf| % 2 == 0)
    requires Cell(buf, t).Some? && Cell(buf, t).value.timestamp == At(buf, x).value.timestamp
    ensures At(buf, t).Some? && 2 * ForwardDiff(t, x) < |buf|
  {
    var n := |buf|;
    var q := buf[Slot(t, n)].value.seqNum;
    assert Near(q, buf[Slot(x, n)].value.seqNum, n);
    if ForwardDiff(t, q) < n {
      SameSlotClose(t, q, n);
    } else {
      SameSlotClose(q, t, n);
    }
  }
}
