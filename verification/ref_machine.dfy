/** The frame reference finder as a value machine: a clear point around the finder that frames call for. */
module RefMachine {
  import opened Options
  import opened SeqNums
  import opened Unwrapping
  import opened GopMap
  import opened SeqNumMachine
  import opened SeqNumRuns

  const MAX_FRAME_REFERENCES: nat := 5
  const FRAME_ID_LENGTH: nat := 32768

  datatype Descriptor = Descriptor(frameId: int, dependencies: seq<int>)

  /** A frame with the parts of its video header that select the finder. */
  datatype Received = Received(frame: Frame, generic: Option<Descriptor>, genericCodec: bool,
                               legacyPictureId: Option<int>)

  /** An unwrapper of frame ids. */
  type IdUnwrapper = u: Unwrapper | u.last.Some? ==> u.last.value < FRAME_ID_LENGTH witness FRESH

  /** The finder in use, if any. */
  datatype Kind = Monostate | GenericFrames | FrameIdOnly(unwrapper: IdUnwrapper) | SeqNumOnly(finder: Finder)

  datatype RefState = RefState(cleared: Option<SeqNum>, kind: Kind)

  /** A frame is complete, padding was received, or frames before a number are no longer wanted. */
  datatype RefOp = Receive(r: Received) | Pad(at: int) | Discard(seqNum: SeqNum)

  const NO_FINDER := RefState(None, Monostate)

  /** Ids and references moved by the offset. */
  function Moved(f: Frame, offset: int): Frame {
    f.(id := f.id + offset, refs := seq(|f.refs|, i requires 0 <= i < |f.refs| => f.refs[i] + offset))
  }

  function MovedAll(fs: seq<Frame>, offset: int): seq<Frame> {
    seq(|fs|, i requires 0 <= i < |fs| => Moved(fs[i], offset))
  }

  /** g is f with its id and every reference larger by the offset. */
  ghost predicate MovedBy(f: Frame, g: Frame, offset: int) {
    && g == f.(id := g.id, refs := g.refs) && g.id - offset == f.id && |g.refs| == |f.refs|
    && forall i :: 0 <= i < |f.refs| ==> g.refs[i] - offset == f.refs[i]
  }

  // ---- One operation -----------------------------------------------------------------

  function ByDescriptor(f: Frame, d: Descriptor): seq<Frame> {
    if |d.dependencies| > MAX_FRAME_REFERENCES then [] else [f.(id := d.frameId, refs := d.dependencies)]
  }

  function ByFrameId(u: IdUnwrapper, f: Frame, frameId: int): (IdUnwrapper, Frame)
  {
    var v := u.Moved(FRAME_ID_LENGTH, frameId % FRAME_ID_LENGTH);
    (v, f.(id := v.unwrapped, refs := if f.kind.KeyFrame? then [] else [v.unwrapped - 1]))
  }

  /** The finder the frame calls for, kept if it is of that kind and new otherwise, and what it hands off. */
  function Managed(k: Kind, r: Received): (t: (Kind, seq<Frame>))
  {
    if r.generic.Some? then (GenericFrames, ByDescriptor(r.frame, r.generic.value))
    else if r.genericCodec && r.legacyPictureId.Some? then
      var (u, f) := ByFrameId(if k.FrameIdOnly? then k.unwrapper else FRESH, r.frame, r.legacyPictureId.value);
      (FrameIdOnly(u), [f])
    else
      var o := Managing(if k.SeqNumOnly? then k.finder else EMPTY, r.frame);
      (SeqNumOnly(o.finder), o.out)
  }

  predicate Stale(cleared: Option<SeqNum>, f: Frame) { cleared.Some? && AheadOf(cleared.value, f.first) }

  function RefStep(s: RefState, op: RefOp, offset: int): (t: (RefState, seq<Frame>))
  {
    match op
    case Receive(r) =>
      if Stale(s.cleared, r.frame) then (s, [])
      else
        var (k, fs) := Managed(s.kind, r);
        (s.(kind := k), MovedAll(fs, offset))
    case Pad(at) =>
      if s.kind.SeqNumOnly? then
        var o := Step(s.kind.finder, Padding(at));
        (s.(kind := SeqNumOnly(o.finder)), MovedAll(o.out, offset))
      else (s, [])
    case Discard(c) =>
      (RefState(Some(c), if s.kind.SeqNumOnly? then SeqNumOnly(Clearing(s.kind.finder, c).finder) else s.kind), [])
  }

  function RefAfter(ops: seq<RefOp>, offset: int): (s: RefState)
  {
    if ops == [] then NO_FINDER else RefStep(RefAfter(ops[..|ops| - 1], offset), ops[|ops| - 1], offset).0
  }

  /** What operation k of a run returns. */
  function ReturnedAt(ops: seq<RefOp>, k: nat, offset: int): seq<Frame>
    requires k < |ops|
  { RefStep(RefAfter(ops[..k], offset), ops[k], offset).1 }

  // ---- The clear point -------------------------------------------------------------------

  /** The clear point in force after a run. */
  ghost function ClearPoint(ops: seq<RefOp>): Option<SeqNum> {
    if ops == [] then None
    else if ops[|ops| - 1].Discard? then Some(ops[|ops| - 1].seqNum) else ClearPoint(ops[..|ops| - 1])
  }

  ghost function StashOf(k: Kind): seq<Frame> { if k.SeqNumOnly? then k.finder.stash else [] }

  /** Nothing that starts before the clear point waits. */
  ghost predicate NoneStale(cleared: Option<SeqNum>, fs: seq<Frame>) { cleared.Some? ==> NoneOlder(cleared.value, fs) }

  lemma MovedNoneStale(cleared: Option<SeqNum>, fs: seq<Frame>, offset: int)
    requires NoneStale(cleared, fs)
    ensures NoneStale(cleared, MovedAll(fs, offset))
  {
  }

  lemma FinderNoneStale(cleared: Option<SeqNum>, m: Finder, op: Op)
    requires NoneStale(cleared, m.stash + GivenBy(op))
    ensures NoneStale(cleared, Step(m, op).out) && NoneStale(cleared, Step(m, op).finder.stash)
  {
    StepFrom(m, op);
    if cleared.Some? {
      FromNoneOlder(cleared.value, Step(m, op).out, m.stash + GivenBy(op));
      FromNoneOlder(cleared.value, Step(m, op).finder.stash, m.stash + GivenBy(op));
    }
  }

  lemma StepNoneStale(s: RefState, op: RefOp, offset: int)
    requires NoneStale(s.cleared, StashOf(s.kind))
    ensures var (s', fs) := RefStep(s, op, offset);
            NoneStale(s'.cleared, StashOf(s'.kind)) && NoneStale(s.cleared, fs)
  {
    match op {
      case Receive(r) =>
        if !Stale(s.cleared, r.frame) {
          if r.generic.None? && !(r.genericCodec && r.legacyPictureId.Some?) {
            var m := if s.kind.SeqNumOnly? then s.kind.finder else EMPTY;
            FinderNoneStale(s.cleared, m, Manage(r.frame));
            MovedNoneStale(s.cleared, Managing(m, r.frame).out, offset);
          }
        }
      case Pad(at) =>
        if s.kind.SeqNumOnly? {
          assert s.kind.finder.stash + [] == s.kind.finder.stash;
          FinderNoneStale(s.cleared, s.kind.finder, Padding(at));
          MovedNoneStale(s.cleared, Step(s.kind.finder, Padding(at)).out, offset);
        }
      case Discard(c) =>
        if s.kind.SeqNumOnly? { KeptFrom(s.kind.finder.stash, c, 0); }
    }
  }

  lemma {:induction false} RunNoneStale(ops: seq<RefOp>, offset: int)
    ensures RefAfter(ops, offset).cleared == ClearPoint(ops)
    ensures NoneStale(ClearPoint(ops), StashOf(RefAfter(ops, offset).kind))
  {
    if ops != [] {
      var before := ops[..|ops| - 1];
      RunNoneStale(before, offset);
      StepNoneStale(RefAfter(before, offset), ops[|ops| - 1], offset);
    }
  }

  /** Over every run, no frame that starts before the clear point in force is returned, whatever was stashed,
      retried or switched in between. */
  lemma NeverStale(ops: seq<RefOp>, k: nat, offset: int)
    requires k < |ops|
    ensures NoneStale(ClearPoint(ops[..k]), ReturnedAt(ops, k, offset))
  {
    RunNoneStale(ops[..k], offset);
    StepNoneStale(RefAfter(ops[..k], offset), ops[k], offset);
  }

  /** At most 101 frames wait, also across switches of finders. */
  lemma {:induction false} FewWait(ops: seq<RefOp>, offset: int)
    ensures |StashOf(RefAfter(ops, offset).kind)| <= MAX_STASHED_FRAMES + 1
  {
    if ops != [] {
      FewWait(ops[..|ops| - 1], offset);
      FewWaitStep(RefAfter(ops[..|ops| - 1], offset), ops[|ops| - 1], offset);
    }
  }

  lemma FewWaitStep(s: RefState, op: RefOp, offset: int)
    requires |StashOf(s.kind)| <= MAX_STASHED_FRAMES + 1
    ensures |StashOf(RefStep(s, op, offset).0.kind)| <= MAX_STASHED_FRAMES + 1
  {
    var m := if s.kind.SeqNumOnly? then s.kind.finder else EMPTY;
    match op {
      case Receive(r) => StashStep(m, Manage(r.frame));
      case Pad(at) => StashStep(m, Padding(at));
      case Discard(c) => StashStep(m, Clear(c));
    }
  }

  // ---- No frame twice ----------------------------------------------------------------------

  ghost function GivenTo(op: RefOp): seq<Frame> { if op.Receive? then [op.r.frame] else [] }

  ghost function RefGiven(ops: seq<RefOp>): seq<Frame> {
    if ops == [] then [] else RefGiven(ops[..|ops| - 1]) + GivenTo(ops[|ops| - 1])
  }

  /** All frames that a run returns, in order. */
  function Returned(ops: seq<RefOp>, offset: int): seq<Frame> {
    if ops == [] then []
    else Returned(ops[..|ops| - 1], offset) + RefStep(RefAfter(ops[..|ops| - 1], offset), ops[|ops| - 1], offset).1
  }

  lemma MovedTags(fs: seq<Frame>, offset: int)
    ensures TagsOf(MovedAll(fs, offset)) == TagsOf(fs) && (Distinct(MovedAll(fs, offset)) <==> Distinct(fs))
  {
    var ms := MovedAll(fs, offset);
    assert |ms| == |fs| && forall i :: 0 <= i < |fs| ==> ms[i].tag == fs[i].tag;
  }

  /** What waits after an operation and what it returns are different frames, of those that waited before and the
      one given in. */
  ghost predicate Uses(before: seq<Frame>, fs: seq<Frame>, waiting: seq<Frame>) {
    Distinct(waiting + fs) && TagsOf(waiting + fs) <= TagsOf(before)
  }

  lemma FinderUses(m: Finder, op: Op, offset: int)
    requires Distinct(m.stash + GivenBy(op))
    ensures Uses(m.stash + GivenBy(op), MovedAll(Step(m, op).out, offset), Step(m, op).finder.stash)
  {
    StepSplits(m, op);
    var o := Step(m, op);
    var w, out, lost := o.finder.stash, o.out, LostFrames(o.lost);
    MovedTags(out, offset);
    SplitTags(w, out, lost);
    TagsOfSum(w, MovedAll(out, offset));
    DistinctSum(w, MovedAll(out, offset));
  }

  lemma OneUsed(before: seq<Frame>, f: Frame, offset: int)
    requires f.tag in TagsOf(before)
    ensures Uses(before, MovedAll([f], offset), []) && Uses(before, [], [])
  {
    OneTag(f);
    MovedTags([f], offset);
    assert [] + MovedAll([f], offset) == MovedAll([f], offset);
  }

  lemma StepUses(s: RefState, op: RefOp, offset: int)
    requires Distinct(StashOf(s.kind) + GivenTo(op))
    ensures var (s', fs) := RefStep(s, op, offset); Uses(StashOf(s.kind) + GivenTo(op), fs, StashOf(s'.kind))
  {
    var before := StashOf(s.kind) + GivenTo(op);
    DistinctSum(StashOf(s.kind), GivenTo(op));
    TagsOfSum(StashOf(s.kind), GivenTo(op));
    match op {
      case Receive(r) =>
        OneTag(r.frame);
        if Stale(s.cleared, r.frame) {
          assert StashOf(s.kind) + [] == StashOf(s.kind);
        } else {
          ManagedUses(s.kind, r, offset);
        }
      case Pad(at) =>
        assert before == StashOf(s.kind) && StashOf(s.kind) + [] == StashOf(s.kind);
        if s.kind.SeqNumOnly? { FinderUses(s.kind.finder, Padding(at), offset); }
      case Discard(c) =>
        assert before == StashOf(s.kind);
        if s.kind.SeqNumOnly? {
          FinderUses(s.kind.finder, Clear(c), offset);
          assert MovedAll([], offset) == [];
        }
    }
  }

  lemma ManagedUses(k: Kind, r: Received, offset: int)
    requires Distinct(StashOf(k) + [r.frame])
    ensures var (k', fs) := Managed(k, r); Uses(StashOf(k) + [r.frame], MovedAll(fs, offset), StashOf(k'))
  {
    var before := StashOf(k) + [r.frame];
    OneTag(r.frame);
    TagsOfSum(StashOf(k), [r.frame]);
    DistinctSum(StashOf(k), [r.frame]);
    var (k', fs) := Managed(k, r);
    if r.generic.Some? || (r.genericCodec && r.legacyPictureId.Some?) {
      if fs == [] {
        assert MovedAll(fs, offset) == [];
        OneUsed(before, r.frame, offset);
      } else {
        assert fs == [fs[0]];
        OneUsed(before, fs[0], offset);
      }
    } else if k.SeqNumOnly? {
      FinderUses(k.finder, Manage(r.frame), offset);
    } else {
      assert [] + [r.frame] == [r.frame];
      FinderUses(EMPTY, Manage(r.frame), offset);
    }
  }

  /** Over every run that gives no frame in twice, what was returned and what waits are different frames given in:
      no frame is returned twice, across stashing, retries and switches. */
  lemma {:induction false} NeverTwice(ops: seq<RefOp>, offset: int)
    requires Distinct(RefGiven(ops))
    ensures var all := StashOf(RefAfter(ops, offset).kind) + Returned(ops, offset);
            Distinct(all) && TagsOf(all) <= TagsOf(RefGiven(ops))
    ensures Distinct(Returned(ops, offset))
  {
    if ops != [] {
      var before, op := ops[..|ops| - 1], ops[|ops| - 1];
      DistinctSum(RefGiven(before), GivenTo(op));
      TagsOfSum(RefGiven(before), GivenTo(op));
      NeverTwice(before, offset);
      var s := RefAfter(before, offset);
      var (s', fs) := RefStep(s, op, offset);
      var w, o, g, w' := StashOf(s.kind), Returned(before, offset), GivenTo(op), StashOf(s'.kind);
      TagsOfSum(w, o);
      DistinctSum(w, o);
      TagsOfSum(w, g);
      DistinctSum(w, g);
      StepUses(s, op, offset);
      TagsOfSum(w', fs);
      DistinctSum(w', fs);
      TagsOfSum(o, fs);
      DistinctSum(o, fs);
      TagsOfSum(w', o + fs);
      DistinctSum(w', o + fs);
    } else {
      assert StashOf(RefAfter(ops, offset).kind) + Returned(ops, offset) == [];
    }
  }

  // ---- Runs that call for the sequence-number finder only ---------------------------------------

  predicate ForSeqNums(op: RefOp) {
    op.Receive? ==> op.r.generic.None? && !(op.r.genericCodec && op.r.legacyPictureId.Some?)
  }

  /** What the finder is given: nothing before the first frame that is not too old, and no frame that is. */
  ghost function Passed(ops: seq<RefOp>): (fo: seq<Op>) {
    if ops == [] then []
    else
      var before, op := Passed(ops[..|ops| - 1]), ops[|ops| - 1];
      match op
      case Receive(r) => if Stale(ClearPoint(ops[..|ops| - 1]), r.frame) then before else before + [Manage(r.frame)]
      case Pad(at) => if before == [] then before else before + [Padding(at)]
      case Discard(c) => if before == [] then before else before + [Clear(c)]
  }

  /** The state and what was returned are those of the finder after the operations fo. */
  ghost predicate Mirrors(kind: Kind, returned: seq<Frame>, fo: seq<Op>, offset: int) {
    && kind == (if fo == [] then Monostate else SeqNumOnly(After(fo).finder))
    && returned == MovedAll(After(fo).out, offset)
  }

  lemma MirrorsNext(kind: Kind, returned: seq<Frame>, fo: seq<Op>, op: Op, offset: int, o: Outcome)
    requires Mirrors(kind, returned, fo, offset) && o == Step(After(fo).finder, op)
    ensures Mirrors(SeqNumOnly(o.finder), returned + MovedAll(o.out, offset), fo + [op], offset)
  {
    AfterNext(fo, op);
    MovedSum(After(fo).out, o.out, offset);
  }

  lemma AfterNext(fo: seq<Op>, op: Op)
    ensures After(fo + [op]) == Then(After(fo), Step(After(fo).finder, op))
  {
    assert (fo + [op])[..|fo|] == fo;
  }

  lemma MovedSum(a: seq<Frame>, b: seq<Frame>, offset: int)
    ensures MovedAll(a + b, offset) == MovedAll(a, offset) + MovedAll(b, offset)
  {
  }

  lemma MirrorsStep(s: RefState, returned: seq<Frame>, fo: seq<Op>, more: seq<Op>, op: RefOp, offset: int)
    requires Mirrors(s.kind, returned, fo, offset) && ForSeqNums(op)
    requires more == match op
                     case Receive(r) => if Stale(s.cleared, r.frame) then fo else fo + [Manage(r.frame)]
                     case Pad(at) => if fo == [] then fo else fo + [Padding(at)]
                     case Discard(c) => if fo == [] then fo else fo + [Clear(c)]
    ensures var (s', fs) := RefStep(s, op, offset); Mirrors(s'.kind, returned + fs, more, offset)
  {
    assert returned + [] == returned;
    var m := After(fo).finder;
    match op {
      case Receive(r) =>
        if !Stale(s.cleared, r.frame) {
          MirrorsNext(s.kind, returned, fo, Manage(r.frame), offset, Managing(m, r.frame));
        }
      case Pad(at) =>
        if fo != [] { MirrorsNext(s.kind, returned, fo, Padding(at), offset, Step(m, Padding(at))); }
      case Discard(c) =>
        if fo != [] {
          MirrorsNext(s.kind, returned, fo, Clear(c), offset, Clearing(m, c));
          assert MovedAll([], offset) == [];
        }
    }
  }

  /** The run is that of the finder on what it is given: all that is proved of the finder's runs holds of it. */
  lemma {:induction false} RunIsFinderRun(ops: seq<RefOp>, offset: int)
    requires forall i :: 0 <= i < |ops| ==> ForSeqNums(ops[i])
    ensures Mirrors(RefAfter(ops, offset).kind, Returned(ops, offset), Passed(ops), offset)
  {
    if ops == [] {
      assert MovedAll([], offset) == [];
    } else {
      var before := ops[..|ops| - 1];
      RunIsFinderRun(before, offset);
      RunNoneStale(before, offset);
      MirrorsStep(RefAfter(before, offset), Returned(before, offset), Passed(before), Passed(ops), ops[|ops| - 1],
                  offset);
    }
  }

  // ---- Frames that carry their ids -----------------------------------------------------------------

  /** A frame with a descriptor is returned with the id and the references that this names, if there are at most
      five. */
  lemma DescriptorDecides(s: RefState, r: Received, offset: int)
    requires r.generic.Some? && !Stale(s.cleared, r.frame)
    ensures var d, out := r.generic.value, RefStep(s, Receive(r), offset).1;
            if |d.dependencies| > 5 then out == []
            else |out| == 1 && MovedBy(r.frame.(id := d.frameId, refs := d.dependencies), out[0], offset)
  {
  }

  /** The frame calls for the finder by frame ids, and carries the k-th id after base. */
  ghost predicate CarriesId(op: RefOp, base: nat, k: nat) {
    && op.Receive? && op.r.generic.None? && op.r.genericCodec && op.r.legacyPictureId.Some?
    && op.r.legacyPictureId.value % FRAME_ID_LENGTH == (base + k) % FRAME_ID_LENGTH
  }

  ghost predicate CarryIds(ops: seq<RefOp>, base: nat) {
    forall k {:trigger ops[k]} :: 0 <= k < |ops| ==> CarriesId(ops[k], base, k)
  }

  /** The frame as it is returned: under its unwrapped id, with a reference to the one before unless it is a key
      frame. */
  function WithId(f: Frame, id: int): Frame { f.(id := id, refs := if f.kind.KeyFrame? then [] else [id - 1]) }

  lemma NextId(u: IdUnwrapper, n: nat, x: nat)
    requires x == n % FRAME_ID_LENGTH
    requires u == Unwrapper(Some((n - 1) % FRAME_ID_LENGTH), n - 1) || (u == FRESH && n < FRAME_ID_LENGTH)
    ensures u.Moved(FRAME_ID_LENGTH, x) == Unwrapper(Some(x), n)
  {
  }

  ghost predicate CountsTo(s: RefState, n: nat, base: nat) {
    s.cleared.None? && (if n == 0 then s == NO_FINDER
                        else s.kind == FrameIdOnly(Unwrapper(Some((base + n - 1) % FRAME_ID_LENGTH), base + n - 1)))
  }

  lemma CountStep(s: RefState, op: RefOp, n: nat, base: nat, offset: int)
    requires CountsTo(s, n, base) && CarriesId(op, base, n) && base < FRAME_ID_LENGTH
    ensures CountsTo(RefStep(s, op, offset).0, n + 1, base)
    ensures RefStep(s, op, offset).1 == MovedAll([WithId(op.r.frame, base + n)], offset)
  {
    NextId(if s.kind.FrameIdOnly? then s.kind.unwrapper else FRESH, base + n,
           op.r.legacyPictureId.value % FRAME_ID_LENGTH);
  }

  lemma {:induction false} CountsOn(ops: seq<RefOp>, n: nat, base: nat, offset: int)
    requires n <= |ops| && base < FRAME_ID_LENGTH && CarryIds(ops, base)
    ensures CountsTo(RefAfter(ops[..n], offset), n, base)
  {
    if n > 0 {
      CountsOn(ops, n - 1, base, offset);
      assert ops[..n][..n - 1] == ops[..n - 1];
      CountStep(RefAfter(ops[..n - 1], offset), ops[n - 1], n - 1, base, offset);
    }
  }

  /** Frames that carry consecutive ids, across every wrap, are all returned at once, under consecutive ids, each with
      a reference to the one before. */
  lemma FrameIdsFollow(ops: seq<RefOp>, n: nat, base: nat, offset: int)
    requires n < |ops| && base < FRAME_ID_LENGTH && CarryIds(ops, base)
    ensures |ReturnedAt(ops, n, offset)| == 1
    ensures MovedBy(WithId(ops[n].r.frame, base + n), ReturnedAt(ops, n, offset)[0], offset)
  {
    CountsOn(ops, n, base, offset);
    CountStep(RefAfter(ops[..n], offset), ops[n], n, base, offset);
  }
}
