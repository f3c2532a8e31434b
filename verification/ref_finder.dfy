/** The frame reference finder: its clear point and the finder in use, in place. */
module RefFinder {
  import opened Options
  import opened SeqNums
  import opened Unwrapping
  import opened GopMap
  import opened SeqNumState
  import opened SeqNumRuns
  import opened SeqNumFinder
  import opened RefMachine

  /** The finder in use, if any, as an object. */
  datatype InUse = NoneYet | Generic | ByFrameIds(unwrapper: IdUnwrapper) | BySeqNums(finder: SeqNumOnlyRefFinder)

  class FrameReferenceFinder {
    const pictureIdOffset: int
    var clearedToSeqNum: Option<SeqNum>
    var refFinder: InUse

    ghost function Repr(): set<object>
      reads this
    { if refFinder.BySeqNums? then {refFinder.finder} else {} }

    function View(): RefState
      reads this, Repr()
    {
      RefState(clearedToSeqNum, match refFinder
                                case NoneYet => Monostate
                                case Generic => GenericFrames
                                case ByFrameIds(u) => FrameIdOnly(u)
                                case BySeqNums(f) => SeqNumOnly(f.View()))
    }

    constructor (offset: int)
      ensures View() == NO_FINDER && pictureIdOffset == offset && Repr() == {}
    {
      pictureIdOffset, clearedToSeqNum, refFinder := offset, None, NoneYet;
    }

    method AddPictureIdOffset(frames: seq<Frame>) returns (out: seq<Frame>)
      ensures out == MovedAll(frames, pictureIdOffset)
      ensures |out| == |frames| && forall i :: 0 <= i < |frames| ==> MovedBy(frames[i], out[i], pictureIdOffset)
    {
      out := [];
      for i := 0 to |frames|
        invariant |out| == i && forall j :: 0 <= j < i ==> out[j] == Moved(frames[j], pictureIdOffset)
      {
        var f := frames[i].(id := frames[i].id + pictureIdOffset);
        var refs := [];
        for k := 0 to |f.refs|
          invariant |refs| == k && forall l :: 0 <= l < k ==> refs[l] == f.refs[l] + pictureIdOffset
        {
          refs := refs + [f.refs[k] + pictureIdOffset];
        }
        assert refs == Moved(frames[i], pictureIdOffset).refs;
        out := out + [f.(refs := refs)];
      }
    }

    /** A frame that starts before the clear point is dropped; any other is given to the finder it calls for,
        and what that hands off is returned with the offset added. */
    method ManageFrame(r: Received) returns (res: seq<Frame>)
      modifies this, Repr()
      ensures (View(), res) == RefStep(old(View()), Receive(r), pictureIdOffset) && fresh(Repr() - old(Repr()))
    {
      if clearedToSeqNum.Some? && AheadOf(clearedToSeqNum.value, r.frame.first) { return []; }
      var frames := ManageByFinder(r);
      res := AddPictureIdOffset(frames);
    }

    method ManageByFinder(r: Received) returns (frames: seq<Frame>)
      modifies this`refFinder, Repr()
      ensures (View().kind, frames) == RefMachine.Managed(old(View()).kind, r) && fresh(Repr() - old(Repr()))
    {
      if r.generic.Some? {
        refFinder := Generic;
        frames := ByDescriptor(r.frame, r.generic.value);
      } else if r.genericCodec && r.legacyPictureId.Some? {
        if !refFinder.ByFrameIds? { refFinder := ByFrameIds(FRESH); }
        var (u, f) := ByFrameId(refFinder.unwrapper, r.frame, r.legacyPictureId.value);
        refFinder := ByFrameIds(u);
        frames := [f];
      } else {
        if !refFinder.BySeqNums? {
          var f := new SeqNumOnlyRefFinder();
          refFinder := BySeqNums(f);
        }
        frames := refFinder.finder.ManageFrame(r.frame);
      }
    }

    method PaddingReceived(seqNum: SeqNum, ghost at: int) returns (res: seq<Frame>)
      requires Low(at) == seqNum
      modifies Repr()
      ensures (View(), res) == RefStep(old(View()), Pad(at), pictureIdOffset)
    {
      if !refFinder.BySeqNums? { return []; }
      ghost var o := SeqNumMachine.Step(refFinder.finder.View(), SeqNumMachine.Padding(at));
      var frames := refFinder.finder.PaddingReceived(seqNum);
      assert refFinder.finder.View() == o.finder && frames == o.out;
      res := AddPictureIdOffset(frames);
    }

    method ClearTo(seqNum: SeqNum)
      modifies this`clearedToSeqNum, Repr()
      ensures View() == RefStep(old(View()), Discard(seqNum), pictureIdOffset).0
    {
      clearedToSeqNum := Some(seqNum);
      if refFinder.BySeqNums? { refFinder.finder.ClearTo(seqNum); }
    }
  }

  // ---- Whole runs ---------------------------------------------------------------

  /** Every run returns, operation by operation, exactly what the machine says: never a frame that starts before
      the clear point in force, and no frame twice. */
  method Run(offset: int, ops: seq<RefOp>) returns (log: seq<seq<Frame>>)
    ensures |log| == |ops| && forall k :: 0 <= k < |ops| ==> log[k] == ReturnedAt(ops, k, offset)
    ensures forall k :: 0 <= k < |ops| ==> NoneStale(ClearPoint(ops[..k]), log[k])
    ensures Distinct(RefGiven(ops)) ==> Distinct(Returned(ops, offset))
    ensures Joined(log) == Returned(ops, offset)
    ensures forall k :: 0 <= k <= |ops| ==> |StashOf(RefAfter(ops[..k], offset).kind)| <= 101
  {
    var f := new FrameReferenceFinder(offset);
    log := [];
    for n := 0 to |ops|
      invariant fresh(f) && fresh(f.Repr()) && f.pictureIdOffset == offset && f.View() == RefAfter(ops[..n], offset)
      invariant LogOk(ops, n, offset, log)
    {
      LogNext(ops, n, offset, log);
      var res := DoOp(f, ops[n]);
      log := log + [res];
    }
    assert ops[..|ops|] == ops;
    forall k | 0 <= k < |ops| ensures NoneStale(ClearPoint(ops[..k]), log[k]) { NeverStale(ops, k, offset); }
    if Distinct(RefGiven(ops)) { NeverTwice(ops, offset); }
    forall k | 0 <= k <= |ops| ensures |StashOf(RefAfter(ops[..k], offset).kind)| <= 101 {
      FewWait(ops[..k], offset);
    }
  }

  method DoOp(f: FrameReferenceFinder, op: RefOp) returns (res: seq<Frame>)
    modifies f, f.Repr()
    ensures (f.View(), res) == RefStep(old(f.View()), op, f.pictureIdOffset) && fresh(f.Repr() - old(f.Repr()))
  {
    res := [];
    match op {
      case Receive(r) => res := f.ManageFrame(r);
      case Pad(at) => res := f.PaddingReceived(Low(at), at);
      case Discard(s) => f.ClearTo(s);
    }
  }

  /** The log of the first n operations. */
  ghost predicate LogOk(ops: seq<RefOp>, n: nat, offset: int, log: seq<seq<Frame>>)
    requires n <= |ops|
  {
    && |log| == n && (forall k :: 0 <= k < n ==> log[k] == ReturnedAt(ops, k, offset))
    && Joined(log) == Returned(ops[..n], offset)
  }

  lemma LogNext(ops: seq<RefOp>, n: nat, offset: int, log: seq<seq<Frame>>)
    requires n < |ops| && LogOk(ops, n, offset, log)
    ensures var (s, fs) := RefStep(RefAfter(ops[..n], offset), ops[n], offset);
            RefAfter(ops[..n + 1], offset) == s && LogOk(ops, n + 1, offset, log + [fs])
  {
    assert ops[..n + 1][..n] == ops[..n];
    var (s, fs) := RefStep(RefAfter(ops[..n], offset), ops[n], offset);
    assert (log + [fs])[..n] == log;
  }

  ghost function Joined(log: seq<seq<Frame>>): seq<Frame> {
    if log == [] then [] else Joined(log[..|log| - 1]) + log[|log| - 1]
  }
}
