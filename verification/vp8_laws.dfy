/** What the steps of the VP8 reference finder amount to, and a stream that is handed off as a whole. */
module Vp8Laws {
  import opened Unwrapping
  import opened GopMap
  import opened Vp8Layers

  // ---- Frames not yet received ---------------------------------------------------------------

  /** p is id, or lies fewer than 100 ids before it and after the last picture. */
  predicate SkippedPic(last: PicId, id: PicId, p: PicId) {
    Forward(32768, p, id) < 100 && Forward(32768, p, id) < Forward(32768, last, id)
  }

  /** The frame is newer than the last picture, or is so 100 ids before: half the range ahead and a little more. */
  predicate Advances(last: Entry, id: PicId) { last != -1 && (Newer(id, last) || Newer(Before(id), last)) }

  /** A frame that is newer than the last picture makes exactly the ids it skips, and its own, not yet received; all
      others only make what is too old be forgotten. */
  lemma ExpectedIs(notYet: set<PicId>, last: Entry, id: PicId)
    ensures forall p: PicId :: p in Expected(notYet, CountFrom(last, id), id) <==>
                               || (p in notYet && !Newer(Before(id), p))
                               || (Advances(last, id) && SkippedPic(last, id, p))
  {
  }

  /** What is not yet received stays so until it is handed off, unless it is too old. */
  lemma NotYetStays(s: State, f: Vp8Frame, p: PicId)
    requires p in s.notYet && !Newer(Before(f.Pid()), p) && (p == f.Pid() ==> Verdict(s, f) != HandOff)
    ensures p in Managed(s, f).0.notYet
  {
    ExpectedIs(s.notYet, s.last, f.Pid());
  }

  // ---- Decisions -------------------------------------------------------------------------------

  /** A frame passes the scan of its layers exactly if every layer has an older id and no frame in between is
      awaited. */
  lemma {:induction false} ScannedIff(v: Layers, notYet: set<PicId>, id: PicId, tid: nat, l: nat)
    requires tid < 5 && l <= tid + 1
    ensures ScanLayers(v, notYet, id, tid, l) == HandOff <==>
            forall i :: l <= i <= tid ==> v[i] != -1 && Newer(id, v[i]) && !Awaited(notYet, v[i], id)
    decreases tid + 1 - l
  {
    if l <= tid { ScannedIff(v, notYet, id, tid, l + 1); }
  }

  /** The newest of the base-layer frames up to tl0, if it may be used. */
  ghost predicate Has(s: State, f: Vp8Frame, k: int) { k in Noted(s, f).info }

  /** A frame with layers of its own is handed off exactly if it is on one of five layers, its base-layer frame is
      there, and: a sync frame is newer than what its layer has; any other is newer than what each of its layers has,
      which has something, and no frame in between is awaited. */
  lemma LayerFrameIff(s: State, f: Vp8Frame)
    requires !f.isKey && 0 < f.temporalIdx < 5
    ensures Verdict(s, f) == HandOff <==>
            && Has(s, f, Tl0(s, f))
            && var v := Noted(s, f).info[Tl0(s, f)];
               if f.layerSync then v[f.temporalIdx] == -1 || Newer(f.Pid(), v[f.temporalIdx])
               else forall i :: 0 <= i <= f.temporalIdx ==>
                                  v[i] != -1 && Newer(f.Pid(), v[i]) && !Awaited(Noted(s, f).notYet, v[i], f.Pid())
  {
    if Has(s, f, Tl0(s, f)) && !f.layerSync {
      ScannedIff(Noted(s, f).info[Tl0(s, f)], Noted(s, f).notYet, f.Pid(), f.temporalIdx, 0);
    }
  }

  /** A base-layer frame is handed off exactly if it is a key frame, or the base-layer frame before it is there and it
      is newer than the base layer it builds on. */
  lemma BaseFrameIff(s: State, f: Vp8Frame)
    requires f.temporalIdx == 0
    ensures Verdict(s, f) == HandOff <==>
            || f.isKey
            || (&& Has(s, f, Tl0(s, f) - 1)
                && var k := if Has(s, f, Tl0(s, f)) then Tl0(s, f) else Tl0(s, f) - 1;
                   Noted(s, f).info[k][0] == -1 || Newer(f.Pid(), Noted(s, f).info[k][0]))
  {
  }

  /** A frame that depends on its layers and jumps over a picture id that lies after one of them waits. */
  lemma JumpWaits(s: State, f: Vp8Frame, p: PicId, l: nat)
    requires !f.isKey && 0 < f.temporalIdx < 5 && !f.layerSync && l <= f.temporalIdx && Has(s, f, Tl0(s, f))
    requires Advances(s.last, f.Pid()) && SkippedPic(s.last, f.Pid(), p) && p != f.Pid()
    requires var v := Noted(s, f).info[Tl0(s, f)]; v[l] != -1 && Newer(p, v[l])
    ensures Verdict(s, f) != HandOff
  {
    ExpectedIs(s.notYet, s.last, f.Pid());
    assert p in Noted(s, f).notYet && Newer(f.Pid(), p);
    assert Awaited(Noted(s, f).notYet, Noted(s, f).info[Tl0(s, f)][l], f.Pid());
    LayerFrameIff(s, f);
  }

  // ---- Layers ------------------------------------------------------------------------------------

  /** From k to j all base-layer frames are there, and none has a newer id on the layer. */
  ghost predicate Reaches(info: LayerInfo, k: int, j: int, tid: nat, id: PicId)
    requires tid < 5
  {
    k <= j && forall i :: k <= i <= j ==> i in info && !Blocks(info[i][tid], id)
  }

  /** The id is entered exactly in the base-layer frames that it reaches, on the frame's layer only. */
  lemma {:induction false} PropagatedIs(info: LayerInfo, k: int, tid: nat, id: PicId, j: int)
    requires tid < 5
    ensures Propagated(info, k, tid, id).Keys == info.Keys
    ensures j in info ==> Propagated(info, k, tid, id)[j] ==
                          if Reaches(info, k, j, tid, id) then info[j][tid := id] else info[j]
    decreases AtOrAfter(info, k)
  {
    if k in info && !Blocks(info[k][tid], id) {
      var next := info[k := info[k][tid := id]];
      LessAfter(info, k, info[k][tid := id]);
      PropagatedIs(next, k + 1, tid, id, j);
      ReachesOn(info, next, k, j, tid, id);
    }
  }

  lemma ReachesOn(info: LayerInfo, next: LayerInfo, k: int, j: int, tid: nat, id: PicId)
    requires tid < 5 && k in info && !Blocks(info[k][tid], id) && next == info[k := info[k][tid := id]]
    ensures j != k ==> Reaches(next, k + 1, j, tid, id) == Reaches(info, k, j, tid, id)
    ensures j == k ==> Reaches(info, k, j, tid, id) && !Reaches(next, k + 1, j, tid, id)
  {
    if j > k {
      if Reaches(next, k + 1, j, tid, id) {
        forall i | k <= i <= j ensures i in info && !Blocks(info[i][tid], id) {
          if i > k { assert i in next && next[i] == info[i]; }
        }
      }
      if Reaches(info, k, j, tid, id) {
        forall i | k + 1 <= i <= j ensures i in next && !Blocks(next[i][tid], id) { assert i in info; }
      }
    }
  }

  /** The layers of a key frame. */
  function KeyLayers(id: PicId): Layers {
    var entry: Entry := id;
    [entry, -1, -1, -1, -1]
  }

  /** A frame that was handed off is entered on its layer of its base-layer frame; a base-layer frame has the other
      layers of the one before it, a key frame none. */
  lemma EntersItself(s: State, f: Vp8Frame)
    requires Verdict(s, f) == HandOff
    ensures f.temporalIdx < 5
    ensures var info, tl0, after := Noted(s, f).info, Tl0(s, f), Managed(s, f).0.info;
            && tl0 in after
            && after[tl0] == if f.isKey then KeyLayers(f.Pid())
                             else if tl0 in info then info[tl0][f.temporalIdx := f.Pid()]
                             else info[tl0 - 1][0 := f.Pid()]
  {
    var info, tl0 := Noted(s, f).info, Tl0(s, f);
    var wider := Opened(info, f, tl0);
    EnteredAt(info, Noted(s, f).notYet, f, tl0);
    PropagatedIs(wider, tl0, f.temporalIdx, f.Pid(), tl0);
    assert Reaches(wider, tl0, tl0, f.temporalIdx, f.Pid());
  }

  lemma EnteredAt(info: LayerInfo, notYet: set<PicId>, f: Vp8Frame, tl0: int)
    requires f.temporalIdx < 5 && DecideVp8(info, notYet, f, tl0) == HandOff
    ensures var wider := Opened(info, f, tl0);
            && tl0 in wider && !Blocks(wider[tl0][f.temporalIdx], f.Pid())
            && wider[tl0][f.temporalIdx := f.Pid()] ==
               if f.isKey then KeyLayers(f.Pid())
               else if tl0 in info then info[tl0][f.temporalIdx := f.Pid()] else info[tl0 - 1][0 := f.Pid()]
  {
    if !f.isKey && f.temporalIdx > 0 && !f.layerSync {
      ScannedIff(info[tl0], notYet, f.Pid(), f.temporalIdx, 0);
    }
  }
}
