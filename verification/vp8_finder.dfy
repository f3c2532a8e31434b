/** The reference finder for VP8 streams with temporal layers, in place. */
module Vp8Finder {
  import opened SeqNums
  import opened Unwrapping
  import opened GopMap
  import opened Vp8Layers
  import opened Vp8Machine

  /** A pass that has come to position i: what is left of it leads to the outcome of the whole. */
  ghost predicate PassFollows(whole: Outcome, out0: seq<Vp8Frame>, out: seq<Vp8Frame>, s: State, stash: seq<Vp8Frame>,
                              i: nat)
  {
    && i <= |stash|
    && whole.finder == Pass(s, stash, i).finder && out0 + whole.out == out + Pass(s, stash, i).out
  }

  lemma PassFollowsNext(whole: Outcome, out0: seq<Vp8Frame>, out: seq<Vp8Frame>, s: State, stash: seq<Vp8Frame>, i: nat,
                        s': State, d: Decision, g: Vp8Frame)
    requires PassFollows(whole, out0, out, s, stash, i) && i < |stash| && Managed(s, stash[i]) == (s', d, g)
    ensures PassFollows(whole, out0, if d == HandOff then out + [g] else out, s', Tried(stash, i, d), NextAt(i, d))
  {
    PassUnfolds(s, stash, i, s', d, g);
    FollowedOut(out, d, stash[i], g, Pass(s', Tried(stash, i, d), NextAt(i, d)));
  }

  lemma FollowedOut(out: seq<Vp8Frame>, d: Decision, f: Vp8Frame, g: Vp8Frame, r: Outcome)
    ensures Followed(d, f, g, r).finder == r.finder
    ensures out + Followed(d, f, g, r).out == (if d == HandOff then out + [g] else out) + r.out
  {
    assert out + ([g] + r.out) == out + [g] + r.out;
  }

  lemma PassUnfolds(s: State, stash: seq<Vp8Frame>, i: nat, s': State, d: Decision, g: Vp8Frame)
    requires i < |stash| && Managed(s, stash[i]) == (s', d, g)
    ensures Pass(s, stash, i) == Followed(d, stash[i], g, Pass(s', Tried(stash, i, d), NextAt(i, d)))
  {
  }

  lemma PassFollowed(whole: Outcome, out0: seq<Vp8Frame>, out: seq<Vp8Frame>, s: State, stash: seq<Vp8Frame>)
    requires PassFollows(whole, out0, out, s, stash, |stash|)
    ensures whole.finder == Finder(s, stash) && out == out0 + whole.out && |whole.out| == |out| - |out0|
  {
    assert out + [] == out;
  }

  /** Retrying that has come this far: what is left of it, if more is to do, leads to the outcome of the whole. */
  ghost predicate RetryFollows(whole: Outcome, res: seq<Vp8Frame>, out: seq<Vp8Frame>, m: Finder, more: bool) {
    if more then
      whole.finder == Retried(m.state, m.stash).finder && res + whole.out == out + Retried(m.state, m.stash).out
    else whole.finder == m && res + whole.out == out
  }

  lemma RetryFollowsNext(whole: Outcome, res: seq<Vp8Frame>, out: seq<Vp8Frame>, m: Finder)
    requires RetryFollows(whole, res, out, m, true)
    ensures var r := Pass(m.state, m.stash, 0);
            && RetryFollows(whole, res, out + r.out, r.finder, r.out != [])
            && |r.finder.stash| + |r.out| <= |m.stash|
  {
    var r := Pass(m.state, m.stash, 0);
    if r.out == [] {
      assert out + [] == out;
    } else {
      var later := Retried(r.finder.state, r.finder.stash).out;
      assert out + (r.out + later) == out + r.out + later;
    }
  }

  class Vp8RefFinder {
    var lastPictureId: Entry
    var notYetReceived: set<PicId>
    var stashedFrames: seq<Vp8Frame>
    var layerInfo: LayerInfo
    var unwrapper: PicUnwrapper
    var tl0Unwrapper: Tl0Unwrapper

    function St(): State
      reads this
    { State(lastPictureId, notYetReceived, layerInfo, unwrapper, tl0Unwrapper) }

    function View(): Finder
      reads this
    { Finder(St(), stashedFrames) }

    constructor ()
      ensures View() == EMPTY
    {
      lastPictureId, notYetReceived, stashedFrames, layerInfo := -1, {}, [], map[];
      unwrapper, tl0Unwrapper := FRESH, FRESH;
    }

    /** Records the frames after the last picture, up to this one, as not yet received. */
    method UpdateNotYetReceived(id: PicId)
      modifies this`lastPictureId, this`notYetReceived
      ensures var from := CountFrom(old(lastPictureId), id);
              && lastPictureId == (if Newer(id, from) then id else from)
              && notYetReceived == Expected(old(notYetReceived), from, id)
    {
      if lastPictureId == -1 { lastPictureId := id; }
      var oldPictureId := Before(id);
      notYetReceived := set p | p in notYetReceived && !Newer(oldPictureId, p);
      if Newer(oldPictureId, lastPictureId) { lastPictureId := oldPictureId; }
      if Newer(id, lastPictureId) { AddMissing(id); }
    }

    /** Adds the ids after the last picture, up to and including id. */
    method AddMissing(id: PicId)
      requires lastPictureId != -1 && Newer(id, lastPictureId)
      modifies this`lastPictureId, this`notYetReceived
      ensures lastPictureId == id && notYetReceived == old(notYetReceived) + Upto(old(lastPictureId), id)
    {
      ghost var from: PicId, kept := lastPictureId, notYetReceived;
      assert Upto(from, from) == {};
      while true
        invariant lastPictureId != -1 && lastPictureId != id
        invariant Forward(32768, from, lastPictureId) + Forward(32768, lastPictureId, id) == Forward(32768, from, id)
        invariant notYetReceived == kept + Upto(from, lastPictureId)
        decreases Forward(32768, lastPictureId, id)
      {
        UptoStep(from, lastPictureId);
        lastPictureId := NextPic(lastPictureId);
        notYetReceived := notYetReceived + {lastPictureId};
        if lastPictureId == id { break; }
      }
    }

    /** Enters a frame's id on its layer, from its base-layer frame on through the following ones, and gives
        it its unwrapped id and references. */
    method UpdateLayerInfo(frame: Vp8Frame, refs: seq<Entry>, tl0: int) returns (out: Vp8Frame)
      requires frame.temporalIdx < 5
      modifies this`layerInfo, this`notYetReceived, this`unwrapper
      ensures layerInfo == Propagated(old(layerInfo), tl0, frame.temporalIdx, frame.Pid())
      ensures notYetReceived == old(notYetReceived) - {frame.Pid()}
      ensures out == Named(old(unwrapper), frame, refs) && unwrapper == UnwrapperAfter(old(unwrapper), frame, refs)
    {
      var k := tl0;
      while k in layerInfo
        invariant unwrapper == old(unwrapper) && notYetReceived == old(notYetReceived)
        invariant Propagated(layerInfo, k, frame.temporalIdx, frame.Pid()) ==
                  Propagated(old(layerInfo), tl0, frame.temporalIdx, frame.Pid())
        decreases AtOrAfter(layerInfo, k)
      {
        if Blocks(layerInfo[k][frame.temporalIdx], frame.Pid()) { break; }
        LessAfter(layerInfo, k, layerInfo[k][frame.temporalIdx := frame.Pid()]);
        layerInfo := layerInfo[k := layerInfo[k][frame.temporalIdx := frame.Pid()]];
        k := k + 1;
      }
      notYetReceived := notYetReceived - {frame.Pid()};
      out := UnwrapPictureIds(frame, refs);
    }

    method UnwrapPictureIds(frame: Vp8Frame, refs: seq<Entry>) returns (out: Vp8Frame)
      modifies this`unwrapper
      ensures out == Named(old(unwrapper), frame, refs) && unwrapper == UnwrapperAfter(old(unwrapper), frame, refs)
    {
      var unwrapped := [];
      for i := 0 to |refs|
        invariant unwrapper == Through(old(unwrapper), refs, i)
        invariant unwrapped == UnwrappedRefs(old(unwrapper), refs, i)
      {
        unwrapper := unwrapper.Moved(32768, refs[i] % 32768);
        unwrapped := unwrapped + [unwrapper.unwrapped];
      }
      unwrapper := unwrapper.Moved(32768, frame.Pid());
      out := frame.(refs := unwrapped, id := unwrapper.unwrapped);
    }

    /** Takes note of the frame's picture id and base-layer counter and forgets old base-layer frames. */
    method Prepare(frame: Vp8Frame) returns (tl0: int)
      modifies this`lastPictureId, this`notYetReceived, this`layerInfo, this`tl0Unwrapper
      ensures St() == Noted(old(St()), frame) && tl0 == Tl0(old(St()), frame)
    {
      UpdateNotYetReceived(frame.Pid());
      tl0Unwrapper := tl0Unwrapper.Moved(256, frame.tl0PicIdx % 256);
      tl0 := tl0Unwrapper.unwrapped;
      layerInfo := map k | k in layerInfo && k >= tl0 - MAX_LAYER_INFO :: layerInfo[k];
    }

    /** One frame: handed off with references to frames handed off earlier, or not. */
    method ManageFrameInternal(frame: Vp8Frame) returns (decision: Decision, out: Vp8Frame)
      modifies this`lastPictureId, this`notYetReceived, this`layerInfo, this`unwrapper, this`tl0Unwrapper
      ensures (St(), decision, out) == Managed(old(St()), frame)
    {
      if frame.temporalIdx >= MAX_TEMPORAL_LAYERS { return Drop, frame; }
      var tl0 := Prepare(frame);
      if !frame.isKey {
        decision, out := ManageDelta(frame, tl0);
        return;
      }
      if frame.temporalIdx != 0 { return Drop, frame; }
      layerInfo := layerInfo[tl0 := [-1, -1, -1, -1, -1]];
      out := UpdateLayerInfo(frame, [], tl0);
      decision := HandOff;
    }

    method ManageDelta(frame: Vp8Frame, tl0: int) returns (decision: Decision, out: Vp8Frame)
      requires !frame.isKey && frame.temporalIdx < 5
      modifies this`notYetReceived, this`layerInfo, this`unwrapper
      ensures decision == DecideVp8(old(layerInfo), old(notYetReceived), frame, tl0)
      ensures St() == Decided(old(St()), frame, tl0, decision)
      ensures out == if decision == HandOff then Named(old(unwrapper), frame, References(old(layerInfo), frame, tl0))
                     else frame
    {
      var base := if frame.temporalIdx == 0 then tl0 - 1 else tl0;
      out := frame;
      if base !in layerInfo { return Stash, frame; }
      if frame.temporalIdx == 0 {
        if tl0 !in layerInfo { layerInfo := layerInfo[tl0 := layerInfo[base]]; }
        var last := layerInfo[tl0][0];  // a base layer always has an id
        if last != -1 && (last == frame.Pid() || Newer(last, frame.Pid())) { return Drop, frame; }
        out := UpdateLayerInfo(frame, [last], tl0);
        return HandOff, out;
      }
      var layers := layerInfo[tl0];
      if frame.layerSync {
        var last := layers[frame.temporalIdx];
        if last != -1 && (last == frame.Pid() || Newer(last, frame.Pid())) { return Drop, frame; }
        out := UpdateLayerInfo(frame, [layers[0]], tl0);
        return HandOff, out;
      }
      var refs;
      decision, refs := FindReferences(layers, notYetReceived, frame);
      if decision == HandOff { out := UpdateLayerInfo(frame, refs, tl0); }
    }

    /** Collects one reference on every layer up to the frame's own. */
    static method FindReferences(layers: Layers, notYet: set<PicId>, frame: Vp8Frame)
      returns (decision: Decision, refs: seq<Entry>)
      requires frame.temporalIdx < 5
      ensures decision == ScanLayers(layers, notYet, frame.Pid(), frame.temporalIdx, 0)
      ensures decision == HandOff ==> refs == layers[..frame.temporalIdx + 1]
    {
      refs := [];
      var layer := 0;
      while layer <= frame.temporalIdx
        invariant 0 <= layer <= frame.temporalIdx + 1 && refs == layers[..layer]
        invariant ScanLayers(layers, notYet, frame.Pid(), frame.temporalIdx, 0) ==
                  ScanLayers(layers, notYet, frame.Pid(), frame.temporalIdx, layer)
      {
        if layers[layer] == -1 { return Stash, refs; }
        if Newer(layers[layer], frame.Pid()) { return Drop, refs; }
        if Awaited(notYet, layers[layer], frame.Pid()) { return Stash, refs; }
        if !Newer(frame.Pid(), layers[layer]) { return Drop, refs; }
        refs := refs + [layers[layer]];
        layer := layer + 1;
      }
      decision := HandOff;
    }

    /** Tries the waiting frame at position i again. */
    method RetryFrame(i: nat, out0: seq<Vp8Frame>)
      returns (decision: Decision, out: seq<Vp8Frame>, ghost frame: Vp8Frame)
      requires i < |stashedFrames|
      modifies this
      ensures Managed(old(St()), old(stashedFrames)[i]) == (St(), decision, frame)
      ensures out == (if decision == HandOff then out0 + [frame] else out0)
      ensures stashedFrames == Tried(old(stashedFrames), i, decision)
    {
      var managed;
      decision, managed := ManageFrameInternal(stashedFrames[i]);
      frame := managed;
      out := if decision == HandOff then out0 + [managed] else out0;
      if decision != Stash { stashedFrames := Without(stashedFrames, i); }
    }

    /** One turn of a pass that started with the output out0 and has the outcome whole. */
    method RetryNext(i: nat, out: seq<Vp8Frame>, ghost whole: Outcome, ghost out0: seq<Vp8Frame>)
      returns (next: nat, after: seq<Vp8Frame>, handedOff: bool)
      requires i < |stashedFrames| && PassFollows(whole, out0, out, St(), stashedFrames, i)
      modifies this
      ensures PassFollows(whole, out0, after, St(), stashedFrames, next)
      ensures |stashedFrames| - next == |old(stashedFrames)| - i - 1
      ensures |after| == if handedOff then |out| + 1 else |out|
    {
      ghost var s, stash := St(), stashedFrames;
      var decision;
      ghost var frame;
      decision, after, frame := RetryFrame(i, out);
      PassFollowsNext(whole, out0, out, s, stash, i, St(), decision, frame);
      next, handedOff := NextAt(i, decision), decision == HandOff;
    }

    /** One pass over the waiting frames. */
    method RetryPass(out0: seq<Vp8Frame>) returns (out: seq<Vp8Frame>, completeFrame: bool)
      modifies this
      ensures var r := Pass(old(St()), old(stashedFrames), 0);
              View() == r.finder && out == out0 + r.out && completeFrame == (r.out != [])
    {
      out, completeFrame := out0, false;
      var i: nat := 0;
      ghost var whole := Pass(St(), stashedFrames, 0);
      while i < |stashedFrames|
        invariant |out0| <= |out| && completeFrame == (|out| > |out0|)
        invariant PassFollows(whole, out0, out, St(), stashedFrames, i)
        decreases |stashedFrames| - i
      {
        var handedOff;
        i, out, handedOff := RetryNext(i, out, whole, out0);
        completeFrame := completeFrame || handedOff;
      }
      PassFollowed(whole, out0, out, St(), stashedFrames);
    }

    /** Retries the waiting frames until a whole pass hands none off. */
    method RetryStashedFrames(res: seq<Vp8Frame>) returns (out: seq<Vp8Frame>)
      modifies this
      ensures var r := Retried(old(St()), old(stashedFrames)); View() == r.finder && out == res + r.out
      ensures EndsDry(View())
    {
      out := res;
      var completeFrame := true;
      ghost var whole := Retried(St(), stashedFrames);
      RetriedDry(St(), stashedFrames);
      while completeFrame
        invariant RetryFollows(whole, res, out, View(), completeFrame)
        decreases |stashedFrames|, completeFrame
      {
        RetryFollowsNext(whole, res, out, View());
        out, completeFrame := RetryPass(out);
      }
    }

    /** Takes a complete frame and returns the frames whose references are known now. */
    method ManageFrame(frame: Vp8Frame) returns (res: seq<Vp8Frame>)
      modifies this
      ensures View() == Managing(old(View()), frame).finder && res == Managing(old(View()), frame).out
    {
      var decision, managed := ManageFrameInternal(frame);
      res := [];
      match decision {
        case Stash =>
          if |stashedFrames| > MAX_STASHED_FRAMES { stashedFrames := stashedFrames[..|stashedFrames| - 1]; }
          stashedFrames := [frame] + stashedFrames;
        case HandOff =>
          res := RetryStashedFrames([managed]);
        case Drop =>
      }
    }

    /** Drops the waiting frames that start before seqNum. */
    method ClearTo(seqNum: SeqNum)
      modifies this`stashedFrames
      ensures View() == Clearing(old(View()), seqNum).finder
      ensures forall f :: f in stashedFrames <==> f in old(stashedFrames) && !AheadOf(seqNum, f.first)
    {
      KeptExactly(stashedFrames, seqNum);
      var i := 0;
      ghost var whole := Kept(stashedFrames, seqNum, 0);
      while i < |stashedFrames|
        invariant i <= |stashedFrames| && whole.0 == Kept(stashedFrames, seqNum, i).0
        decreases |stashedFrames| - i
      {
        if AheadOf(seqNum, stashedFrames[i].first) {
          stashedFrames := Without(stashedFrames, i);
        } else {
          i := i + 1;
        }
      }
    }
  }

  // ---- Whole runs -----------------------------------------------------------------

  /** The frame is among those handed off, without references. */
  ghost predicate KeyDelivered(out: seq<Vp8Frame>, frame: Vp8Frame) {
    exists j :: 0 <= j < |out| && RefersTo(out[j], frame, [])
  }

  lemma DeliveredLater(out: seq<Vp8Frame>, res: seq<Vp8Frame>, frame: Vp8Frame)
    ensures KeyDelivered(out, frame) ==> KeyDelivered(out + res, frame)
    ensures res != [] && RefersTo(res[0], frame, []) ==> KeyDelivered(out + res, frame)
  {
    if KeyDelivered(out, frame) {
      var j :| 0 <= j < |out| && RefersTo(out[j], frame, []);
      assert RefersTo((out + res)[j], frame, []);
    }
    if res != [] && RefersTo(res[0], frame, []) { assert RefersTo((out + res)[|out|], frame, []); }
  }

  predicate IsBaseKey(op: Op) { op.Manage? && BaseKey(op.frame) }

  /** The base-layer key frames among the first n operations were handed off. */
  ghost predicate KeysDelivered(ops: seq<Op>, n: nat, out: seq<Vp8Frame>)
    requires n <= |ops|
  {
    forall j :: 0 <= j < n && IsBaseKey(ops[j]) ==> KeyDelivered(out, ops[j].frame)
  }

  lemma KeysDeliveredLater(ops: seq<Op>, n: nat, out: seq<Vp8Frame>, res: seq<Vp8Frame>)
    requires n < |ops| && KeysDelivered(ops, n, out)
    requires IsBaseKey(ops[n]) ==> res != [] && RefersTo(res[0], ops[n].frame, [])
    ensures KeysDelivered(ops, n + 1, out + res)
  {
    forall j | 0 <= j <= n && IsBaseKey(ops[j]) ensures KeyDelivered(out + res, ops[j].frame) {
      DeliveredLater(out, res, ops[j].frame);
    }
  }

  /** A base-layer key frame is handed off at once. */
  lemma KeyStep(m: Finder, f: Vp8Frame, history: seq<Vp8Frame>)
    requires BaseKey(f) && Core(m.state, history)
    ensures Managing(m, f).out != [] && RefersTo(Managing(m, f).out[0], f, [])
  {
    ManagedCore(m.state, f, history);
  }

  lemma {:induction false} RunKeys(ops: seq<Op>, n: nat)
    requires n <= |ops|
    ensures KeysDelivered(ops, n, After(ops[..n]).out)
  {
    if n > 0 {
      RunKeys(ops, n - 1);
      RunCore(ops[..n - 1]);
      assert ops[..n][..n - 1] == ops[..n - 1];
      var r := After(ops[..n - 1]);
      if IsBaseKey(ops[n - 1]) { KeyStep(r.finder, ops[n - 1].frame, r.out); }
      KeysDeliveredLater(ops, n - 1, r.out, Step(r.finder, ops[n - 1]).out);
    }
  }

  /** Every run hands off, keeps waiting and loses exactly what the machine says: whatever the order of arrival,
      every reference of every frame handed off is the picture id of a frame handed off earlier; the frames given
      in are those waiting, at most 101, those handed off, and those lost; and every base-layer key frame is handed
      off. */
  method Run(ops: seq<Op>) returns (out: seq<Vp8Frame>, waiting: seq<Vp8Frame>)
    ensures out == After(ops).out && waiting == After(ops).finder.stash
    ensures SoundHistory(out) && KeysDelivered(ops, |ops|, out)
    ensures |waiting| <= MAX_STASHED_FRAMES + 1 && LossesOk(ops, After(ops))
    ensures SameFrames(out, After(ops).given)
    ensures Given(ops) == multiset(waiting) + multiset(After(ops).given) + Lost(After(ops))
  {
    var f := new Vp8RefFinder();
    out := [];
    for n := 0 to |ops|
      invariant f.View() == After(ops[..n]).finder && out == After(ops[..n]).out
    {
      assert ops[..n + 1][..n] == ops[..n];
      var res := [];
      match ops[n] {
        case Manage(frame) => res := f.ManageFrame(frame);
        case Clear(s) => f.ClearTo(s);
      }
      out := out + res;
    }
    assert ops[..|ops|] == ops;
    waiting := f.stashedFrames;
    RunCore(ops);
    RunKeys(ops, |ops|);
    RunLosses(ops);
    RunSplits(ops);
  }
}
