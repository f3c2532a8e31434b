/** The packet buffer's operations on values: what each one does to everything a buffer remembers, and what this
    means for H.264 over whole runs. */
module BufferSteps {
  import opened Options
  import opened SeqNums
  import opened PacketRing
  import opened MissingPackets
  import opened FrameRuns
  import opened PacketFates

  // ---- One operation ------------------------------------------------------------------

  /** Everything a buffer remembers. */
  datatype Snapshot = Snapshot(ring: Slots, missing: set<SeqNum>, newest: Option<SeqNum>,
                               first: SeqNum, received: bool, cleared: bool)

  /** A new buffer, or one that has forgotten everything. */
  ghost predicate Emptied(t: Snapshot) {
    Empty(t.ring) && t.missing == {} && t.newest.None? && !t.received && !t.cleared
  }

  /** What is recorded missing once the number s has been seen. */
  ghost function MissingWith(t: Snapshot, s: SeqNum): set<SeqNum> { Updated(t.missing, t.newest.GetOr(s), s) }

  function NewestWith(t: Snapshot, s: SeqNum): SeqNum { NewestAfter(t.newest.GetOr(s), s) }

  /** The number s lies before the point cleared to. */
  predicate TooOld(t: Snapshot, s: SeqNum) { t.received && AheadOf(t.first, s) && t.cleared }

  /** The first number once s has been inserted: it moves back, unless it was cleared to. */
  function FirstWith(t: Snapshot, s: SeqNum): SeqNum {
    if t.received && (!AheadOf(t.first, s) || t.cleared) then t.first else s
  }

  /** The number s was seen, and the frames that are complete from the number `from` on were taken out of the
      ring full. */
  ghost predicate FramesFound(h: bool, forced: bool, before: Snapshot, s: SeqNum, full: Slots, from: SeqNum,
                              after: Snapshot, found: seq<Packet>, frames: seq<seq<Packet>>)
  {
    && after.newest == Some(NewestWith(before, s)) && after.cleared == before.cleared
    && Handed(h, full, MissingWith(before, s), forced, after.ring, after.missing, found, frames)
    && FlagsKept(h, full, after.ring, frames) && Searched(after.ring, after.missing, forced, from)
  }

  /** The packet is neither old nor stored already and has room in a ring of the given size. */
  ghost predicate Admits(t: Snapshot, s: SeqNum, size: nat)
    requires size > 0
  {
    !TooOld(t, s) && At(t.ring, s).None? && !Crowded(t.ring, s, size)
  }

  /** A packet that is not admitted changes nothing but the first number, or makes the buffer forget everything. */
  ghost predicate Unchanged(before: Snapshot, s: SeqNum, after: Snapshot) {
    if TooOld(before, s) then after == before
    else if At(before.ring, s).Some? then after == before.(first := FirstWith(before, s), received := true)
    else Emptied(after)
  }

  ghost predicate Refused(before: Snapshot, s: SeqNum, f: Fate, after: Snapshot) {
    && Unchanged(before, s, after)
    && if TooOld(before, s) then f.Ignored? else if At(before.ring, s).Some? then f.Duplicate? else f.Collided?
  }

  /** The packet was stored in the ring full and the frames it completes were taken out. */
  ghost predicate Admitted(forced: bool, before: Snapshot, p: Packet, full: Slots, after: Snapshot,
                           found: seq<Packet>, frames: seq<seq<Packet>>)
  {
    && FullWith(before.ring, full, p) && after.first == FirstWith(before, p.seqNum) && after.received
    && FramesFound(p.codec.H264?, forced, before, p.seqNum, full, p.seqNum, after, found, frames)
  }

  /** Number of slots that clearing to s visits. */
  function Visited(buf: Slots, first: SeqNum, s: SeqNum): nat {
    var diff := ForwardDiff(first, Next(s));
    if diff < |buf| then diff else |buf|
  }

  /** Clearing to s cuts through a partly received frame. */
  predicate Cuts(buf: Slots, first: SeqNum, s: SeqNum)
  { CutsFrame(buf, first, Visited(buf, first, s), Next(s)) }

  /** Clearing to s: nothing happens before the first packet or if s is cleared past already; otherwise exactly
      the visited packets up to s are dropped. */
  ghost predicate DroppedTo(before: Snapshot, s: SeqNum, after: Snapshot) {
    if !before.received || TooOld(before, s) then after == before
    else
      && after.received && after.cleared && after.first == Next(s) && after.newest == before.newest
      && after.missing == Trimmed(before.missing, Next(s)) && |after.ring| == |before.ring|
      && forall t: SeqNum :: At(after.ring, t) ==
                             if Drops(before.ring, before.first, Visited(before.ring, before.first, s), Next(s), t)
                             then None else At(before.ring, t)
  }

  // ---- H.264 ---------------------------------------------------------------------------

  ghost predicate AllEnd(full: Slots, frames: seq<seq<Packet>>) { forall f :: f in frames ==> EndsIn(full, f) }

  /** The number s was seen and the frames complete from the number `from` on were taken out of the ring full, each
      with a last packet at its end and as far back as its timestamp goes: no delta frame while a packet at or before
      its start is missing; what is missing up to the end of a frame handed out is forgotten; and the search went on
      to where it has to end. */
  ghost predicate Gated(forced: bool, before: Snapshot, s: SeqNum, full: Slots, from: SeqNum,
                        frames: seq<seq<Packet>>, after: Snapshot)
  {
    && AllFrames(frames) && KeysMarked(frames, forced)
    && NonEmpty(frames) && DeltasGapFree(frames, MissingWith(before, s))
    && after.newest == Some(NewestWith(before, s)) && after.missing == MissingAfter(MissingWith(before, s), frames)
    && Conserved(full, after.ring, Flatten(frames)) && AllWhole(after.ring, frames)
    && KeepsFlags(full, after.ring) && AllEnd(full, frames) && Searched(after.ring, after.missing, forced, from)
    && after.cleared == before.cleared
  }

  ghost predicate StoredStep(forced: bool, before: Snapshot, p: Packet, full: Slots, frames: seq<seq<Packet>>,
                             after: Snapshot)
  {
    && FullWith(before.ring, full, p) && Gated(forced, before, p.seqNum, full, p.seqNum, frames, after)
    && after.first == FirstWith(before, p.seqNum) && after.received
  }

  /** One operation of an H.264 run, with the fate of its packet and the frames it handed out. */
  ghost predicate H264Step(size: nat, forced: bool, before: Snapshot, op: Op, f: Fate, frames: seq<seq<Packet>>,
                           after: Snapshot)
    requires size > 0
  {
    match op
    case Insert(p) =>
      && (WasStored(f) <==> Admits(before, p.seqNum, size))
      && if WasStored(f) then exists full :: StoredStep(forced, before, p, full, frames, after)
         else frames == [] && Refused(before, p.seqNum, f, after)
    case Padding(s) =>
      && Gated(forced, before, s, before.ring, Next(s), frames, after)
      && after.first == before.first && after.received == before.received
    case DropTo(s) => frames == [] && DroppedTo(before, s, after)
    case DropAll => frames == [] && Emptied(after)
  }

  ghost function FlattenAll(log: seq<seq<seq<Packet>>>): seq<Packet> {
    if log == [] then [] else FlattenAll(log[..|log| - 1]) + Flatten(log[|log| - 1])
  }

  /** The run so far: one step for each operation, and the output is the frames of all steps. */
  ghost predicate H264Log(ops: seq<Op>, size: nat, forced: bool, out: seq<Packet>, fate: seq<Fate>,
                          log: seq<seq<seq<Packet>>>, trace: seq<Snapshot>)
  {
    && |fate| == |log| <= |ops| && |trace| == |log| + 1 && Emptied(trace[0]) && size > 0 && out == FlattenAll(log)
    && forall k :: 0 <= k < |log| ==> H264Step(size, forced, trace[k], ops[k], fate[k], log[k], trace[k + 1])
  }

  lemma H264LogGrows(ops: seq<Op>, size: nat, forced: bool, out: seq<Packet>, fate: seq<Fate>,
                     log: seq<seq<seq<Packet>>>, trace: seq<Snapshot>, more: seq<Fate>, found: seq<Packet>,
                     frames: seq<seq<Packet>>, after: Snapshot)
    requires H264Log(ops, size, forced, out, fate, log, trace) && |log| < |ops|
    requires |more| == |fate| + 1 && SameReason(fate, more) && found == Flatten(frames)
    requires H264Step(size, forced, trace[|log|], ops[|log|], more[|log|], frames, after)
    ensures H264Log(ops, size, forced, out + found, more, log + [frames], trace + [after])
  {
    var l, t := log + [frames], trace + [after];
    assert l[..|log|] == log;
    forall k | 0 <= k < |l| ensures H264Step(size, forced, t[k], ops[k], more[k], l[k], t[k + 1]) {
      if k < |log| {
        assert H264Step(size, forced, trace[k], ops[k], fate[k], log[k], trace[k + 1]);
        SameStep(size, forced, trace[k], ops[k], fate[k], more[k], log[k], trace[k + 1]);
      }
    }
  }

  /** A step does not tell what became of a packet that was stored. */
  lemma SameStep(size: nat, forced: bool, before: Snapshot, op: Op, f: Fate, g: Fate, frames: seq<seq<Packet>>,
                 after: Snapshot)
    requires size > 0 && H264Step(size, forced, before, op, f, frames, after)
    requires f == g || (WasStored(f) && WasStored(g))
    ensures H264Step(size, forced, before, op, g, frames, after)
  {
  }

  lemma FramesGated(forced: bool, before: Snapshot, s: SeqNum, full: Slots, from: SeqNum, after: Snapshot,
                    found: seq<Packet>, frames: seq<seq<Packet>>)
    requires FramesFound(true, forced, before, s, full, from, after, found, frames) && SpanOk(full)
    ensures Gated(forced, before, s, full, from, frames, after) && found == Flatten(frames)
  {
  }

  // ---- The missing packets over a run ---------------------------------------------------------

  ghost predicate SnapOk(t: Snapshot) {
    if t.newest.None? then t.missing == {} else InWindow(t.missing, t.newest.value)
  }

  /** The operation jumps by exactly half the number space while the oldest number of the window is missing. */
  ghost predicate Jumps(t: Snapshot, op: Op) {
    t.newest.Some? &&
    match op
    case Insert(p) => JumpsHalf(t.missing, t.newest.value, p.seqNum)
    case Padding(s) => JumpsHalf(t.missing, t.newest.value, s)
    case _ => false
  }

  lemma {:induction false} MissingShrinks(missing: set<SeqNum>, frames: seq<seq<Packet>>)
    requires NonEmpty(frames)
    ensures MissingAfter(missing, frames) <= missing
    decreases |frames|
  {
    if frames != [] {
      assert forall f :: f in frames[..|frames| - 1] ==> f in frames;
      MissingShrinks(missing, frames[..|frames| - 1]);
    }
  }

  lemma StepKeepsWindow(size: nat, forced: bool, before: Snapshot, op: Op, f: Fate, frames: seq<seq<Packet>>,
                        after: Snapshot)
    requires size > 0 && H264Step(size, forced, before, op, f, frames, after) && SnapOk(before) && !Jumps(before, op)
    ensures SnapOk(after)
  {
    match op {
      case Insert(p) =>
        if WasStored(f) {
          var full :| StoredStep(forced, before, p, full, frames, after);
          GatedKeepsWindow(forced, before, p.seqNum, full, p.seqNum, frames, after);
        }
      case Padding(s) => GatedKeepsWindow(forced, before, s, before.ring, Next(s), frames, after);
      case _ =>
    }
  }

  lemma GatedKeepsWindow(forced: bool, before: Snapshot, s: SeqNum, full: Slots, from: SeqNum,
                         frames: seq<seq<Packet>>, after: Snapshot)
    requires Gated(forced, before, s, full, from, frames, after) && SnapOk(before)
    requires before.newest.Some? ==> !JumpsHalf(before.missing, before.newest.value, s)
    ensures SnapOk(after)
  {
    WindowKept(before.missing, before.newest.GetOr(s), s);
    MissingShrinks(MissingWith(before, s), frames);
  }

  /** Over every run, as long as there was no such jump, the missing numbers lie in the 1000 before the newest. */
  lemma {:induction false} WindowOverRun(ops: seq<Op>, size: nat, forced: bool, out: seq<Packet>, fate: seq<Fate>,
                                         log: seq<seq<seq<Packet>>>, trace: seq<Snapshot>, k: nat)
    requires H264Log(ops, size, forced, out, fate, log, trace) && k <= |log|
    requires forall j :: 0 <= j < k ==> !Jumps(trace[j], ops[j])
    ensures SnapOk(trace[k])
  {
    if k > 0 {
      WindowOverRun(ops, size, forced, out, fate, log, trace, k - 1);
      assert H264Step(size, forced, trace[k - 1], ops[k - 1], fate[k - 1], log[k - 1], trace[k]);
      StepKeepsWindow(size, forced, trace[k - 1], ops[k - 1], fate[k - 1], log[k - 1], trace[k]);
    }
  }

  ghost predicate NoJumps(ops: seq<Op>, trace: seq<Snapshot>, k: nat)
    requires k <= |ops| && k <= |trace|
  { forall j :: 0 <= j < k ==> !Jumps(trace[j], ops[j]) }

  lemma WindowsKept(ops: seq<Op>, size: nat, forced: bool, out: seq<Packet>, fate: seq<Fate>,
                    log: seq<seq<seq<Packet>>>, trace: seq<Snapshot>)
    requires H264Log(ops, size, forced, out, fate, log, trace) && |log| == |ops|
    ensures forall k :: 0 <= k <= |ops| && NoJumps(ops, trace, k) ==> SnapOk(trace[k])
  {
    forall k | 0 <= k <= |ops| && NoJumps(ops, trace, k) ensures SnapOk(trace[k]) {
      WindowOverRun(ops, size, forced, out, fate, log, trace, k);
    }
  }

  // ---- Gaps over a run -------------------------------------------------------------------

  /** The number an operation shows the buffer: that of a packet stored, or of padding. */
  function ShownBy(op: Op, f: Fate): Option<SeqNum> {
    if op.Padding? then Some(op.seqNum) else if op.Insert? && WasStored(f) then Some(op.packet.seqNum) else None
  }

  predicate Empties(op: Op, f: Fate) { op.DropAll? || (op.Insert? && f.Collided?) }

  /** The newest number shown by the first n operations, since the buffer was last emptied. */
  function NewestShown(ops: seq<Op>, fate: seq<Fate>, n: nat): Option<SeqNum>
    requires n <= |ops| && n <= |fate|
  {
    if n == 0 || Empties(ops[n - 1], fate[n - 1]) then None
    else
      var newest, shown := NewestShown(ops, fate, n - 1), ShownBy(ops[n - 1], fate[n - 1]);
      if shown.Some? && (newest.None? || AheadOf(shown.value, newest.value)) then shown else newest
  }

  /** What an operation does to the newest and the missing numbers. */
  ghost predicate GapStep(before: Snapshot, op: Op, f: Fate, frames: seq<seq<Packet>>, after: Snapshot) {
    match ShownBy(op, f)
    case Some(s) =>
      && NonEmpty(frames) && DeltasGapFree(frames, MissingWith(before, s))
      && after.newest == Some(NewestWith(before, s)) && after.missing == MissingAfter(MissingWith(before, s), frames)
    case None =>
      && frames == []
      && if Empties(op, f) then after.newest.None?
         else && after.newest == before.newest
              && (forall m :: m in before.missing && !ClearsPast(before, op, m) ==> m in after.missing)
  }

  lemma IsGapStep(size: nat, forced: bool, before: Snapshot, op: Op, f: Fate, frames: seq<seq<Packet>>, after: Snapshot)
    requires size > 0 && H264Step(size, forced, before, op, f, frames, after)
    ensures GapStep(before, op, f, frames, after)
  {
    if op.Insert? && WasStored(f) { var full :| StoredStep(forced, before, op.packet, full, frames, after); }
  }

  ghost predicate GapLog(ops: seq<Op>, fate: seq<Fate>, log: seq<seq<seq<Packet>>>, trace: seq<Snapshot>) {
    && |log| == |fate| <= |ops| && |trace| == |log| + 1 && trace[0].newest.None?
    && forall k {:trigger log[k]} :: 0 <= k < |log| ==> GapStep(trace[k], ops[k], fate[k], log[k], trace[k + 1])
  }

  lemma {:induction false} NewestIs(ops: seq<Op>, fate: seq<Fate>, log: seq<seq<seq<Packet>>>, trace: seq<Snapshot>,
                                    n: nat)
    requires GapLog(ops, fate, log, trace) && n <= |log|
    ensures trace[n].newest == NewestShown(ops, fate, n)
  {
    if n > 0 {
      NewestIs(ops, fate, log, trace, n - 1);
      assert GapStep(trace[n - 1], ops[n - 1], fate[n - 1], log[n - 1], trace[n]);
    }
  }

  /** Operation j jumps over m: its number is ahead of the newest, and m lies in between, fewer than 1000 back. */
  predicate Skips(ops: seq<Op>, fate: seq<Fate>, j: nat, m: SeqNum)
    requires j < |ops| && j < |fate|
  {
    var newest, shown := NewestShown(ops, fate, j), ShownBy(ops[j], fate[j]);
    newest.Some? && shown.Some? && AheadOf(shown.value, newest.value) && SkippedBy(newest.value, shown.value, m)
  }

  /** Every one of the frames ends before m. */
  ghost predicate EndBefore(frames: seq<seq<Packet>>, m: SeqNum) {
    forall f: seq<Packet> :: f in frames ==> |f| > 0 && AheadOf(m, f[|f| - 1].seqNum)
  }

  ghost predicate ClearsPast(t: Snapshot, op: Op, m: SeqNum) {
    op.DropTo? && t.received && !TooOld(t, op.seqNum) && !AheadOf(m, Next(op.seqNum))
  }

  /** Operation k shows another number than m, and m is not more than 1000 behind the newest one then. */
  ghost predicate NotShown(ops: seq<Op>, fate: seq<Fate>, k: nat, m: SeqNum)
    requires k < |ops| && k < |fate|
  {
    && ShownBy(ops[k], fate[k]) != Some(m)
    && var newest := NewestShown(ops, fate, k + 1);
       newest.Some? ==> ForwardDiff(m, newest.value) <= MAX_PADDING_AGE
  }

  /** After operation k, m is as unseen as before: neither inserted nor padded, not too old, not cleared past, and
      no frame returned ends at it or later. */
  ghost predicate StaysOpen(ops: seq<Op>, fate: seq<Fate>, log: seq<seq<seq<Packet>>>, trace: seq<Snapshot>,
                            k: nat, m: SeqNum)
    requires k < |log| == |fate| <= |ops| && |trace| == |log| + 1
  {
    && NotShown(ops, fate, k, m) && EndBefore(log[k], m)
    && !Empties(ops[k], fate[k]) && !ClearsPast(trace[k], ops[k], m)
  }

  /** Operation j jumped over m, and m has stayed open up to operation n. */
  ghost predicate Open(ops: seq<Op>, fate: seq<Fate>, log: seq<seq<seq<Packet>>>, trace: seq<Snapshot>,
                       j: nat, n: nat, m: SeqNum)
    requires n <= |log| == |fate| <= |ops| && |trace| == |log| + 1
  {
    && j < n && Skips(ops, fate, j, m) && EndBefore(log[j], m)
    && forall k :: j < k < n ==> StaysOpen(ops, fate, log, trace, k, m)
  }

  /** m is open when operation n looks for frames. */
  ghost predicate OpenAt(ops: seq<Op>, fate: seq<Fate>, log: seq<seq<seq<Packet>>>, trace: seq<Snapshot>,
                         j: nat, n: nat, m: SeqNum)
    requires n < |log| == |fate| <= |ops| && |trace| == |log| + 1
  {
    || (j == n && Skips(ops, fate, n, m))
    || (Open(ops, fate, log, trace, j, n, m) && NotShown(ops, fate, n, m))
  }

  /** Exactly what lies ahead of every frame handed out is still missing. */
  lemma {:induction false} MissingAfterIs(missing: set<SeqNum>, frames: seq<seq<Packet>>, m: SeqNum)
    requires NonEmpty(frames)
    ensures m in MissingAfter(missing, frames) <==> m in missing && EndBefore(frames, m)
    decreases |frames|
  {
    if frames != [] {
      var l := |frames| - 1;
      assert forall f :: f in frames[..l] ==> f in frames;
      MissingAfterIs(missing, frames[..l], m);
      assert frames[l] in frames && frames == frames[..l] + [frames[l]];
    }
  }

  /** A number that is jumped over is missing when the frames are looked for. */
  lemma SkippedMissing(t: Snapshot, s: SeqNum, m: SeqNum)
    requires t.newest.Some? && AheadOf(s, t.newest.value) && SkippedBy(t.newest.value, s, m)
    ensures m in MissingWith(t, s)
  {
    UpdatedIs(t.missing, t.newest.value, s);
  }

  lemma ShownMissing(t: Snapshot, s: SeqNum, m: SeqNum)
    requires m in t.missing && m != s && ForwardDiff(m, NewestWith(t, s)) <= MAX_PADDING_AGE
    ensures m in MissingWith(t, s)
  {
    UpdatedKeeps(t.missing, t.newest.GetOr(s), s, m);
  }

  lemma OpenStep(before: Snapshot, op: Op, f: Fate, frames: seq<seq<Packet>>, after: Snapshot, m: SeqNum)
    requires GapStep(before, op, f, frames, after) && m in before.missing
    requires ShownBy(op, f) != Some(m) && !Empties(op, f) && !ClearsPast(before, op, m) && EndBefore(frames, m)
    requires after.newest.Some? ==> ForwardDiff(m, after.newest.value) <= MAX_PADDING_AGE
    ensures m in after.missing
  {
    if ShownBy(op, f).Some? {
      ShownMissing(before, ShownBy(op, f).value, m);
      MissingAfterIs(MissingWith(before, ShownBy(op, f).value), frames, m);
    }
  }

  lemma SkipStep(before: Snapshot, op: Op, f: Fate, frames: seq<seq<Packet>>, after: Snapshot, m: SeqNum)
    requires GapStep(before, op, f, frames, after) && EndBefore(frames, m)
    requires before.newest.Some? && ShownBy(op, f).Some? && AheadOf(ShownBy(op, f).value, before.newest.value)
    requires SkippedBy(before.newest.value, ShownBy(op, f).value, m)
    ensures m in after.missing
  {
    SkippedMissing(before, ShownBy(op, f).value, m);
    MissingAfterIs(MissingWith(before, ShownBy(op, f).value), frames, m);
  }

  /** What is open is recorded missing. */
  lemma {:induction false} OpenIsMissing(ops: seq<Op>, fate: seq<Fate>, log: seq<seq<seq<Packet>>>,
                                         trace: seq<Snapshot>, j: nat, n: nat, m: SeqNum)
    requires GapLog(ops, fate, log, trace) && n <= |log| && Open(ops, fate, log, trace, j, n, m)
    ensures m in trace[n].missing
    decreases n
  {
    var k := n - 1;
    NewestIs(ops, fate, log, trace, k);
    NewestIs(ops, fate, log, trace, n);
    if j == k {
      SkipStep(trace[k], ops[k], fate[k], log[k], trace[k + 1], m);
    } else {
      OpenIsMissing(ops, fate, log, trace, j, k, m);
      assert StaysOpen(ops, fate, log, trace, k, m);
      OpenStep(trace[k], ops[k], fate[k], log[k], trace[k + 1], m);
    }
  }

  /** Frame i of operation n, if it is a delta frame, starts before m. */
  ghost predicate DeltaBefore(log: seq<seq<seq<Packet>>>, n: nat, i: nat, m: SeqNum)
    requires n < |log| && i < |log[n]|
  {
    |log[n][i]| > 0 && (!log[n][i][0].frameType.KeyFrame? ==> AheadOf(m, log[n][i][0].seqNum))
  }

  /** No delta frame is returned while a number at or before its start is open: one that was jumped over, has been
      neither inserted nor padded since, is not more than 1000 behind the newest, and lies after the last frame
      returned and the last clear. */
  lemma DeltaWaits(ops: seq<Op>, fate: seq<Fate>, log: seq<seq<seq<Packet>>>, trace: seq<Snapshot>,
                   j: nat, n: nat, i: nat, m: SeqNum)
    requires GapLog(ops, fate, log, trace) && n < |log| && i < |log[n]|
    requires OpenAt(ops, fate, log, trace, j, n, m) && EndBefore(log[n][..i], m)
    ensures DeltaBefore(log, n, i, m)
  {
    assert GapStep(trace[n], ops[n], fate[n], log[n], trace[n + 1]);
    NewestIs(ops, fate, log, trace, n);
    NewestIs(ops, fate, log, trace, n + 1);
    var s := ShownBy(ops[n], fate[n]).value;
    if j == n && Skips(ops, fate, n, m) {
      SkippedMissing(trace[n], s, m);
    } else {
      OpenIsMissing(ops, fate, log, trace, j, n, m);
      ShownMissing(trace[n], s, m);
    }
    DeltaAfterGap(log[n], MissingWith(trace[n], s), i, m);
  }

  lemma DeltaAfterGap(frames: seq<seq<Packet>>, missing: set<SeqNum>, i: nat, m: SeqNum)
    requires NonEmpty(frames) && DeltasGapFree(frames, missing) && i < |frames|
    requires m in missing && EndBefore(frames[..i], m)
    ensures |frames[i]| > 0 && (!frames[i][0].frameType.KeyFrame? ==> AheadOf(m, frames[i][0].seqNum))
  {
    assert forall f :: f in frames[..i] ==> f in frames;
    MissingAfterIs(missing, frames[..i], m);
    assert frames[i] in frames;
  }

  /** The same, of all frames of a run. */
  ghost predicate GapsRespected(ops: seq<Op>, fate: seq<Fate>, log: seq<seq<seq<Packet>>>, trace: seq<Snapshot>)
    requires |log| == |fate| <= |ops| && |trace| == |log| + 1
  {
    forall j: nat, n: nat, i: nat, m: SeqNum ::
      n < |log| && i < |log[n]| && OpenAt(ops, fate, log, trace, j, n, m) && EndBefore(log[n][..i], m) ==>
        DeltaBefore(log, n, i, m)
  }

  lemma AllGapsRespected(ops: seq<Op>, size: nat, forced: bool, out: seq<Packet>, fate: seq<Fate>,
                         log: seq<seq<seq<Packet>>>, trace: seq<Snapshot>)
    requires H264Log(ops, size, forced, out, fate, log, trace)
    ensures GapsRespected(ops, fate, log, trace)
  {
    forall k | 0 <= k < |log| ensures GapStep(trace[k], ops[k], fate[k], log[k], trace[k + 1]) {
      IsGapStep(size, forced, trace[k], ops[k], fate[k], log[k], trace[k + 1]);
    }
    forall j: nat, n: nat, i: nat, m: SeqNum |
      n < |log| && i < |log[n]| && OpenAt(ops, fate, log, trace, j, n, m) && EndBefore(log[n][..i], m)
      ensures DeltaBefore(log, n, i, m)
    {
      DeltaWaits(ops, fate, log, trace, j, n, i, m);
    }
  }
}
