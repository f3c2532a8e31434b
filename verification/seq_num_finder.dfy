/** The reference finder for streams that carry nothing but RTP sequence numbers, in place. */
module SeqNumFinder {
  import opened SeqNums
  import opened Unwrapping
  import opened GopMap
  import opened SeqNumState
  import opened SeqNumMachine
  import opened SeqNumRuns

  /** A pass that has come to position i: what is left of it leads to the outcome of the whole. */
  ghost predicate PassFollows(whole: Outcome, out0: seq<Frame>, out: seq<Frame>, s: State, stash: seq<Frame>, i: nat) {
    && i <= |stash|
    && whole.finder == Pass(s, stash, i).finder && out0 + whole.out == out + Pass(s, stash, i).out
  }

  lemma PassFollowsNext(whole: Outcome, out0: seq<Frame>, out: seq<Frame>, s: State, stash: seq<Frame>, i: nat)
    requires PassFollows(whole, out0, out, s, stash, i) && i < |stash|
    ensures var (s', d, f) := Managed(s, stash[i]);
            PassFollows(whole, out0, if d == HandOff then out + [f] else out, s',
                        if d == Stash then stash else Without(stash, i), if d == Stash then i + 1 else i)
  {
    var (s', d, f) := Managed(s, stash[i]);
    if d == HandOff {
      var later := Pass(s', Without(stash, i), i).out;
      assert out + ([f] + later) == out + [f] + later;
    }
  }

  lemma PassFollowed(whole: Outcome, out0: seq<Frame>, out: seq<Frame>, s: State, stash: seq<Frame>)
    requires PassFollows(whole, out0, out, s, stash, |stash|)
    ensures whole.finder == Finder(s, stash) && out == out0 + whole.out && |whole.out| == |out| - |out0|
  {
    assert out + [] == out;
  }

  /** Retrying that has come this far: what is left of it, if more is to do, leads to the outcome of the whole. */
  ghost predicate RetryFollows(whole: Outcome, res: seq<Frame>, out: seq<Frame>, s: State, stash: seq<Frame>,
                               more: bool)
  {
    if more then whole.finder == Retried(s, stash).finder && res + whole.out == out + Retried(s, stash).out
    else whole.finder == Finder(s, stash) && res + whole.out == out
  }

  lemma RetryFollowsNext(whole: Outcome, res: seq<Frame>, out: seq<Frame>, s: State, stash: seq<Frame>)
    requires RetryFollows(whole, res, out, s, stash, true)
    ensures var r := Pass(s, stash, 0);
            && RetryFollows(whole, res, out + r.out, r.finder.state, r.finder.stash, r.out != [])
            && |r.finder.stash| + |r.out| <= |stash|
  {
    var r := Pass(s, stash, 0);
    if r.out == [] {
      assert out + [] == out;
    } else {
      var later := Retried(r.finder.state, r.finder.stash).out;
      assert out + (r.out + later) == out + r.out + later;
    }
  }

  class SeqNumOnlyRefFinder {
    var lastSeqNumGop: seq<Gop>
    var stashedPadding: set<SeqNum>
    var stashedFrames: seq<Frame>
    var unwrapper: SeqUnwrapper

    function St(): State
      reads this
    { State(lastSeqNumGop, stashedPadding, unwrapper) }

    function View(): Finder
      reads this
    { Finder(St(), stashedFrames) }

    constructor ()
      ensures View() == EMPTY
    {
      lastSeqNumGop, stashedPadding, stashedFrames, unwrapper := [], {}, [], FRESH;
    }

    method UpdateLastPictureIdWithPadding(seqNum: SeqNum)
      modifies this`lastSeqNumGop, this`stashedPadding
      ensures lastSeqNumGop == Padded(old(lastSeqNumGop), old(stashedPadding), seqNum)
      ensures stashedPadding == PaddingLeft(old(lastSeqNumGop), old(stashedPadding), seqNum)
      ensures PaddingFollowed(old(lastSeqNumGop), old(stashedPadding), seqNum, lastSeqNumGop, stashedPadding)
    {
      FollowsPadding(lastSeqNumGop, stashedPadding, seqNum);
      var i := UpperBound(lastSeqNumGop, seqNum);
      if i == 0 { return; }
      i := i - 1;
      var next := Next(lastSeqNumGop[i].pad);
      ghost var g, pad := lastSeqNumGop, lastSeqNumGop[i].pad;
      while next in stashedPadding
        invariant |lastSeqNumGop| == |g| && next == Next(lastSeqNumGop[i].pad)
        invariant lastSeqNumGop == g[i := g[i].(pad := lastSeqNumGop[i].pad)]
        invariant PadEnd(stashedPadding, lastSeqNumGop[i].pad) == PadEnd(old(stashedPadding), pad)
        invariant PadRest(stashedPadding, lastSeqNumGop[i].pad) == PadRest(old(stashedPadding), pad)
        decreases stashedPadding
      {
        lastSeqNumGop := lastSeqNumGop[i := lastSeqNumGop[i].(pad := next)];
        stashedPadding := stashedPadding - {next};
        next := Next(next);
      }
      if ForwardDiff(lastSeqNumGop[i].key, seqNum) > REKEY_DISTANCE {
        lastSeqNumGop := [lastSeqNumGop[i].(key := seqNum)];
      }
    }

    /** Forgets groups more than 100 numbers before `last`, but keeps at least one. */
    method CleanOldGroups(last: SeqNum)
      requires lastSeqNumGop != []
      modifies this`lastSeqNumGop
      ensures lastSeqNumGop == Cleaned(old(lastSeqNumGop), last)
    {
      ghost var g1 := lastSeqNumGop;
      var cleanTo := LowerBound(lastSeqNumGop, Minus(last, MAX_GOP_AGE));
      while cleanTo > 0 && |lastSeqNumGop| > 1
        invariant 0 <= cleanTo <= |lastSeqNumGop| <= |g1| && lastSeqNumGop != []
        invariant lastSeqNumGop == g1[|g1| - |lastSeqNumGop|..]
        invariant cleanTo + (|g1| - |lastSeqNumGop|) == LowerBound(g1, Minus(last, MAX_GOP_AGE))
      {
        lastSeqNumGop := lastSeqNumGop[1..];
        cleanTo := cleanTo - 1;
      }
    }

    /** Adds a group for a key frame, unless it has one. */
    method StartGroup(last: SeqNum)
      modifies this`lastSeqNumGop
      ensures lastSeqNumGop == Inserted(old(lastSeqNumGop), last)
    {
      var i := LowerBound(lastSeqNumGop, last);
      if !(i < |lastSeqNumGop| && lastSeqNumGop[i].key == last) {
        lastSeqNumGop := lastSeqNumGop[..i] + [Gop(last, last, last)] + lastSeqNumGop[i..];
      }
    }

    /** Gives the frame its id and reference and makes it the last one of its group. */
    method SetReferences(it: nat, frame: Frame) returns (out: Frame)
      requires it < |lastSeqNumGop|
      modifies this`lastSeqNumGop, this`stashedPadding, this`unwrapper
      ensures (St(), out) == Joined(old(St()), it, frame)
    {
      var lastPictureId := lastSeqNumGop[it].pic;
      unwrapper := unwrapper.Moved(M, lastPictureId);
      out := frame.(refs := if frame.kind.DeltaFrame? then [unwrapper.unwrapped] else []);
      if AheadOf(frame.last, lastPictureId) {
        lastSeqNumGop := lastSeqNumGop[it := lastSeqNumGop[it].(pic := frame.last, pad := frame.last)];
      }
      UpdateLastPictureIdWithPadding(frame.last);
      unwrapper := unwrapper.Moved(M, frame.last);
      out := out.(id := unwrapper.unwrapped);
    }

    method ManageFrameInternal(frame: Frame) returns (decision: Decision, out: Frame)
      modifies this`lastSeqNumGop, this`stashedPadding, this`unwrapper
      ensures (St(), decision, out) == Managed(old(St()), frame)
    {
      out := frame;
      if frame.kind.KeyFrame? { StartGroup(frame.last); }
      if lastSeqNumGop == [] { return Stash, out; }
      CleanOldGroups(frame.last);
      var it := UpperBound(lastSeqNumGop, frame.last);
      if it == 0 { return Drop, out; }
      it := it - 1;
      if frame.kind.DeltaFrame? && Prev(frame.first) != lastSeqNumGop[it].pad { return Stash, out; }
      out := SetReferences(it, frame);
      decision := HandOff;
    }

    /** Tries the waiting frame at position i again. */
    method RetryFrame(i: nat, out0: seq<Frame>) returns (decision: Decision, out: seq<Frame>)
      requires i < |stashedFrames|
      modifies this
      ensures var (s, d, f) := Managed(old(St()), old(stashedFrames)[i]);
              && St() == s && decision == d && out == (if d == HandOff then out0 + [f] else out0)
              && stashedFrames == if d == Stash then old(stashedFrames) else Without(old(stashedFrames), i)
    {
      var frame;
      decision, frame := ManageFrameInternal(stashedFrames[i]);
      out := if decision == HandOff then out0 + [frame] else out0;
      if decision != Stash { stashedFrames := Without(stashedFrames, i); }
    }

    /** One turn of a pass that started with the output out0 and has the outcome whole. */
    method RetryNext(i: nat, out: seq<Frame>, ghost whole: Outcome, ghost out0: seq<Frame>)
      returns (next: nat, after: seq<Frame>, handedOff: bool)
      requires i < |stashedFrames| && PassFollows(whole, out0, out, St(), stashedFrames, i)
      modifies this
      ensures PassFollows(whole, out0, after, St(), stashedFrames, next)
      ensures |stashedFrames| - next == |old(stashedFrames)| - i - 1
      ensures |after| == if handedOff then |out| + 1 else |out|
    {
      PassFollowsNext(whole, out0, out, St(), stashedFrames, i);
      var decision;
      decision, after := RetryFrame(i, out);
      next, handedOff := if decision == Stash then i + 1 else i, decision == HandOff;
    }

    /** One pass over the waiting frames. */
    method RetryPass(out0: seq<Frame>) returns (out: seq<Frame>, completeFrame: bool)
      modifies this
      ensures var r := Pass(old(St()), old(stashedFrames), 0);
              View() == r.finder && out == out0 + r.out && completeFrame == (r.out != [])
    {
      out, completeFrame := out0, false;
      var i: nat := 0;
      ghost var whole := Pass(St(), stashedFrames, 0);
      while i < |stashedFrames|
        invariant |out0| <= |out| && completeFrame == (|out| > |out0|)
        invariant PassFollows(whole, out0, out, St(), stashedFrames, i)
        decreases |stashedFrames| - i
      {
        var handedOff;
        i, out, handedOff := RetryNext(i, out, whole, out0);
        completeFrame := completeFrame || handedOff;
      }
      PassFollowed(whole, out0, out, St(), stashedFrames);
    }

    /** Retries the waiting frames until a whole pass hands none off. */
    method RetryStashedFrames(res: seq<Frame>) returns (out: seq<Frame>)
      modifies this
      ensures View() == Retried(old(St()), old(stashedFrames)).finder
      ensures out == res + Retried(old(St()), old(stashedFrames)).out
    {
      out := res;
      var completeFrame := true;
      ghost var whole := Retried(St(), stashedFrames);
      assert res + whole.out == out + whole.out;
      while completeFrame
        invariant RetryFollows(whole, res, out, St(), stashedFrames, completeFrame)
        decreases |stashedFrames|, completeFrame
      {
        RetryFollowsNext(whole, res, out, St(), stashedFrames);
        out, completeFrame := RetryPass(out);
      }
    }

    /** Takes a complete frame and returns the frames whose references are known now. */
    method ManageFrame(frame: Frame) returns (res: seq<Frame>)
      modifies this
      ensures View() == Managing(old(View()), frame).finder && res == Managing(old(View()), frame).out
    {
      var decision, managed := ManageFrameInternal(frame);
      res := [];
      match decision {
        case Stash =>
          if |stashedFrames| > MAX_STASHED_FRAMES { stashedFrames := stashedFrames[..|stashedFrames| - 1]; }
          stashedFrames := [frame] + stashedFrames;
        case HandOff =>
          res := RetryStashedFrames([managed]);
        case Drop =>
      }
    }

    /** A padding packet was received: it may complete the numbers before a waiting frame. */
    method PaddingReceived(seqNum: SeqNum) returns (res: seq<Frame>)
      modifies this
      ensures var r := Retried(WithPadding(old(St()), seqNum), old(stashedFrames)); View() == r.finder && res == r.out
    {
      stashedPadding := set p | p in stashedPadding && !AheadOf(Minus(seqNum, GopMap.MAX_PADDING_AGE), p);
      stashedPadding := stashedPadding + {seqNum};
      UpdateLastPictureIdWithPadding(seqNum);
      res := RetryStashedFrames([]);
    }

    /** Drops the waiting frames that start before seqNum. */
    method ClearTo(seqNum: SeqNum)
      modifies this`stashedFrames
      ensures View() == Clearing(old(View()), seqNum).finder
    {
      var i := 0;
      ghost var whole := Kept(stashedFrames, seqNum, 0);
      while i < |stashedFrames|
        invariant i <= |stashedFrames| && whole.finder == Kept(stashedFrames, seqNum, i).finder
        decreases |stashedFrames| - i
      {
        if AheadOf(seqNum, stashedFrames[i].first) {
          stashedFrames := Without(stashedFrames, i);
        } else {
          i := i + 1;
        }
      }
    }
  }

  // ---- Whole runs ---------------------------------------------------------------

  /** What a run promises: every frame handed off is sound by the padding reported, no waiting frame could be
      handed off, key frames are handed off, and every frame given up has its reason. */
  ghost predicate LiveRun(ops: seq<Op>, out: seq<Frame>, waiting: seq<Frame>, gop: seq<Gop>) {
    && SoundHistory(out, Reported(ops)) && Waiting(gop, waiting) && KeysOut(ops, |ops|, out)
    && forall l :: l in After(ops).lost ==> HasReason(ops, l)
  }

  lemma RunIsLive(ops: seq<Op>, starts: seq<int>)
    requires StaysLive(ops, starts)
    ensures LiveRun(ops, After(ops).out, After(ops).finder.stash, After(ops).finder.state.gop)
  {
    RunGood(ops, starts);
    RunKeys(ops, starts);
    RunLosses(ops, starts);
  }

  /** Every run hands off, keeps waiting and loses exactly what the machine says; as long as the live numbers fit
      a window that moves on with the stream, it is sound and complete; and without repeated frames, every frame
      given in is exactly one of handed off once, waiting or lost. */
  method Run(ops: seq<Op>) returns (out: seq<Frame>, waiting: seq<Frame>, gop: seq<Gop>)
    ensures out == After(ops).out && waiting == After(ops).finder.stash && gop == After(ops).finder.state.gop
    ensures |waiting| <= MAX_STASHED_FRAMES + 1
    ensures forall starts :: StaysLive(ops, starts) ==> LiveRun(ops, out, waiting, gop)
    ensures Distinct(Given(ops)) ==> Splits(Given(ops), After(ops))
  {
    var f := new SeqNumOnlyRefFinder();
    out := [];
    for n := 0 to |ops|
      invariant f.View() == After(ops[..n]).finder && out == After(ops[..n]).out
    {
      assert ops[..n + 1][..n] == ops[..n];
      var res := [];
      match ops[n] {
        case Manage(frame) => res := f.ManageFrame(frame);
        case Padding(at) => res := f.PaddingReceived(Low(at));
        case Clear(s) => f.ClearTo(s);
      }
      out := out + res;
    }
    assert ops[..|ops|] == ops;
    waiting, gop := f.stashedFrames, f.lastSeqNumGop;
    StashBounded(ops);
    forall starts | StaysLive(ops, starts) ensures LiveRun(ops, out, waiting, gop) { RunIsLive(ops, starts); }
    if Distinct(Given(ops)) { RunSplits(ops); }
  }
}
