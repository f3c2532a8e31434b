/** What is known about the temporal layers of a VP8 stream, and what this means for one frame. */
module Vp8Layers {
  import opened SeqNums
  import opened Unwrapping
  import opened GopMap

  const MAX_LAYER_INFO: nat := 50
  const MAX_NOT_YET_RECEIVED_FRAMES: nat := 100
  const MAX_TEMPORAL_LAYERS: nat := 5

  /** 15-bit picture id. */
  type PicId = x: nat | x < 32768

  datatype Vp8Frame = Vp8Frame(
    first: SeqNum, isKey: bool, pictureId: int, tl0PicIdx: int, temporalIdx: nat, layerSync: bool,
    id: int, refs: seq<int>)
  {
    function Pid(): PicId { pictureId % 32768 }
  }

  /** A picture id, or -1 for none. */
  type Entry = x: int | -1 <= x < 32768

  /** The last picture id on each temporal layer. */
  type Layers = v: seq<Entry> | |v| == 5 witness [-1, -1, -1, -1, -1]

  type LayerInfo = map<int, Layers>

  predicate Newer(a: PicId, b: PicId) { Ahead(32768, a, b) }

  // ---- The invariant ----------------------------------------------------------

  /** On every layer an id known there, on the base layer always. */
  ghost predicate LayersOk(v: Layers, known: set<(int, int)>) {
    v[0] != -1 && forall l :: 0 <= l < 5 ==> v[l] == -1 || (l, v[l] as int) in known
  }

  ghost predicate InfoOk(info: LayerInfo, known: set<(int, int)>) {
    forall k :: k in info ==> LayersOk(info[k], known)
  }

  /** The temporal layers and picture ids of the frames handed off. */
  ghost function Known(history: seq<Vp8Frame>): set<(int, int)> {
    set i | 0 <= i < |history| :: (history[i].temporalIdx as int, history[i].Pid() as int)
  }

  /** Number of references: none for a key frame, the base layer for a base-layer or sync frame, and otherwise
      every layer up to its own. */
  function RefCount(f: Vp8Frame): nat {
    if f.isKey then 0 else if f.temporalIdx == 0 || f.layerSync then 1 else f.temporalIdx + 1
  }

  /** The frame has as many references as it should, and the i-th one is, in 15 bits, the picture id of a frame known
      on layer i. */
  ghost predicate RefsKnown(f: Vp8Frame, known: set<(int, int)>) {
    |f.refs| == RefCount(f) && forall i :: 0 <= i < |f.refs| ==> (i, f.refs[i] % 32768) in known
  }

  /** Every reference of every frame handed off belongs to a frame handed off earlier, and its own
      id is its picture id in 15 bits. */
  ghost predicate SoundHistory(history: seq<Vp8Frame>) {
    forall j :: 0 <= j < |history| ==>
                  RefsKnown(history[j], Known(history[..j])) && history[j].id % 32768 == history[j].Pid()
  }

  lemma HistoryGrows(history: seq<Vp8Frame>, f: Vp8Frame)
    requires SoundHistory(history) && RefsKnown(f, Known(history)) && f.id % 32768 == f.Pid()
    ensures SoundHistory(history + [f]) &&
            Known(history + [f]) == Known(history) + {(f.temporalIdx as int, f.Pid() as int)}
  {
    var h := history + [f];
    forall j | 0 <= j < |h| ensures RefsKnown(h[j], Known(h[..j])) && h[j].id % 32768 == h[j].Pid() {
      assert h[..j] == if j < |history| then history[..j] else history;
    }
    forall p | p in Known(history) + {(f.temporalIdx as int, f.Pid() as int)} ensures p in Known(h) {
      if p in Known(history) {
        var i :| 0 <= i < |history| && (history[i].temporalIdx as int, history[i].Pid() as int) == p;
        assert h[i] == history[i];
      } else {
        assert h[|history|] == f;
      }
    }
  }

  // ---- Steps on picture ids and layers ------------------------------------------

  function NextPic(p: PicId): PicId { if p == 32767 then 0 else p + 1 }

  /** The oldest picture id that is still waited for once id has been seen. */
  function Before(id: PicId): PicId {
    if id >= MAX_NOT_YET_RECEIVED_FRAMES then id - MAX_NOT_YET_RECEIVED_FRAMES
    else id - MAX_NOT_YET_RECEIVED_FRAMES + 32768
  }

  /** The id after which missing frames are recorded when id is seen. */
  function CountFrom(last: Entry, id: PicId): PicId {
    var l: PicId := if last == -1 then id else last;
    if Newer(Before(id), l) then Before(id) else l
  }

  /** The ids after a up to and including b. */
  ghost function Upto(a: PicId, b: PicId): set<PicId> {
    set p: PicId | 0 <= p < 32768 && 0 < Forward(32768, a, p) <= Forward(32768, a, b)
  }

  /** The frames waited for once id has been seen, given the id that frames are missing after. */
  ghost function Expected(notYet: set<PicId>, from: PicId, id: PicId): set<PicId> {
    (set p | p in notYet && !Newer(Before(id), p)) + (if Newer(id, from) then Upto(from, id) else {})
  }

  lemma UptoStep(a: PicId, b: PicId)
    requires Forward(32768, a, b) < 32767
    ensures Upto(a, NextPic(b)) == Upto(a, b) + {NextPic(b)}
  {
    forall p: PicId ensures p in Upto(a, NextPic(b)) <==> p in Upto(a, b) + {NextPic(b)} {
      assert Forward(32768, a, NextPic(b)) == Forward(32768, a, b) + 1;
      assert Forward(32768, a, p) == Forward(32768, a, NextPic(b)) <==> p == NextPic(b);
    }
  }

  /** A newer frame is already entered. */
  predicate Blocks(entry: Entry, id: PicId) { entry != -1 && Newer(entry, id) }

  ghost function AtOrAfter(info: LayerInfo, k: int): set<int> { set j | j in info && j >= k }

  lemma LessAfter(info: LayerInfo, k: int, v: Layers)
    requires k in info
    ensures AtOrAfter(info[k := v], k + 1) < AtOrAfter(info, k)
  {
    assert k in AtOrAfter(info, k) && k !in AtOrAfter(info[k := v], k + 1);
  }

  /** The id entered on layer tid of base-layer frame k and of those that follow it without a gap,
      up to one that already has a newer id. */
  ghost function Propagated(info: LayerInfo, k: int, tid: nat, id: PicId): LayerInfo
    requires tid < 5
    decreases AtOrAfter(info, k)
  {
    if k in info && !Blocks(info[k][tid], id) then
      LessAfter(info, k, info[k][tid := id]);
      Propagated(info[k := info[k][tid := id]], k + 1, tid, id)
    else info
  }

  lemma {:induction false} PropagatedKeeps(info: LayerInfo, k: int, tid: nat, id: PicId, known: set<(int, int)>)
    requires tid < 5 && InfoOk(info, known) && (tid as int, id as int) in known
    ensures InfoOk(Propagated(info, k, tid, id), known)
    decreases AtOrAfter(info, k)
  {
    if k in info && !Blocks(info[k][tid], id) {
      LessAfter(info, k, info[k][tid := id]);
      PropagatedKeeps(info[k := info[k][tid := id]], k + 1, tid, id, known);
    }
  }

  // ---- Decisions ------------------------------------------------------------------

  /** An entry that is at or after the frame: the frame has been used already. */
  predicate Used(entry: Entry, id: PicId) { entry != -1 && !Newer(id, entry) }

  /** A frame after the one referenced and before this one has not been received yet. */
  predicate Awaited(notYet: set<PicId>, entry: PicId, id: PicId) {
    exists p :: p in notYet && Newer(p, entry) && Newer(id, p)
  }

  /** What the layers from l to tid allow for a frame that depends on all of them. */
  function ScanLayers(v: Layers, notYet: set<PicId>, id: PicId, tid: nat, l: nat): Decision
    requires tid < 5 && l <= tid + 1
    decreases tid + 1 - l
  {
    if l > tid then HandOff
    else if v[l] == -1 then Stash
    else if Newer(v[l], id) then Drop
    else if Awaited(notYet, v[l], id) then Stash
    else if !Newer(id, v[l]) then Drop
    else ScanLayers(v, notYet, id, tid, l + 1)
  }

  /** The base-layer frame whose layers a delta frame builds on. */
  function BaseOf(info: LayerInfo, f: Vp8Frame, tl0: int): int {
    if f.temporalIdx == 0 && tl0 !in info then tl0 - 1 else tl0
  }

  /** What becomes of a frame, given the layers of the base-layer frames not too old. */
  function DecideVp8(info: LayerInfo, notYet: set<PicId>, f: Vp8Frame, tl0: int): Decision
    requires f.temporalIdx < 5
  {
    if f.isKey then (if f.temporalIdx != 0 then Drop else HandOff)
    else if (if f.temporalIdx == 0 then tl0 - 1 else tl0) !in info then Stash
    else
      var v := info[BaseOf(info, f, tl0)];
      if f.temporalIdx == 0 then (if Used(v[0], f.Pid()) then Drop else HandOff)
      else if f.layerSync then (if Used(v[f.temporalIdx], f.Pid()) then Drop else HandOff)
      else ScanLayers(v, notYet, f.Pid(), f.temporalIdx, 0)
  }

  /** The 15-bit references of a frame that is handed off: none for a key frame, the base layer for
      a base-layer or sync frame, and otherwise every layer up to its own. */
  function References(info: LayerInfo, f: Vp8Frame, tl0: int): seq<Entry>
    requires f.temporalIdx < 5
  {
    if f.isKey || BaseOf(info, f, tl0) !in info then []
    else
      var v := info[BaseOf(info, f, tl0)];
      if f.temporalIdx == 0 || f.layerSync then [v[0]] else v[..f.temporalIdx + 1]
  }

  /** The layers a frame enters its id into. */
  function Opened(info: LayerInfo, f: Vp8Frame, tl0: int): LayerInfo {
    if f.isKey then info[tl0 := [-1, -1, -1, -1, -1]]
    else if f.temporalIdx == 0 && tl0 !in info && tl0 - 1 in info then info[tl0 := info[tl0 - 1]]
    else info
  }

  /** The base-layer frames that are not too old for tl0. */
  function Recent(info: LayerInfo, tl0: int): LayerInfo {
    map k | k in info && k >= tl0 - MAX_LAYER_INFO :: info[k]
  }

  lemma {:induction false} ScannedKnown(v: Layers, notYet: set<PicId>, id: PicId, tid: nat, l: nat)
    requires tid < 5 && l <= tid + 1
    requires ScanLayers(v, notYet, id, tid, l) == HandOff
    ensures forall i :: l <= i <= tid ==> v[i] != -1 && Newer(id, v[i]) && !Awaited(notYet, v[i], id)
    decreases tid + 1 - l
  {
    if l <= tid { ScannedKnown(v, notYet, id, tid, l + 1); }
  }

  /** The references of a frame handed off are ids of frames handed off before. */
  lemma ReferencesKnown(info: LayerInfo, notYet: set<PicId>, f: Vp8Frame, tl0: int, known: set<(int, int)>)
    requires f.temporalIdx < 5 && InfoOk(info, known) && DecideVp8(info, notYet, f, tl0) == HandOff
    ensures var refs := References(info, f, tl0);
            |refs| == RefCount(f) && -1 !in refs && forall i :: 0 <= i < |refs| ==> (i, refs[i] as int) in known
  {
    if !f.isKey && f.temporalIdx != 0 && !f.layerSync {
      ScannedKnown(info[tl0], notYet, f.Pid(), f.temporalIdx, 0);
    }
  }

  /** Entering a handed-off frame keeps every layer known. */
  lemma EnteredOk(info: LayerInfo, notYet: set<PicId>, f: Vp8Frame, tl0: int, known: set<(int, int)>)
    requires f.temporalIdx < 5 && InfoOk(info, known) && DecideVp8(info, notYet, f, tl0) == HandOff
    ensures InfoOk(Propagated(Opened(info, f, tl0), tl0, f.temporalIdx, f.Pid()),
                   known + {(f.temporalIdx as int, f.Pid() as int)})
  {
    var layers := Opened(info, f, tl0);
    var more := known + {(f.temporalIdx as int, f.Pid() as int)};
    if f.isKey {
      var entered := layers[tl0 := layers[tl0][0 := f.Pid()]];
      LessAfter(layers, tl0, layers[tl0][0 := f.Pid()]);
      assert InfoOk(entered, more);
      PropagatedKeeps(entered, tl0 + 1, 0, f.Pid(), more);
    } else {
      assert InfoOk(layers, more);
      PropagatedKeeps(layers, tl0, f.temporalIdx, f.Pid(), more);
    }
  }

  // ---- Unwrapped ids -----------------------------------------------------------------

  type PicUnwrapper = u: Unwrapper | u.last.Some? ==> u.last.value < 32768 witness FRESH
  type Tl0Unwrapper = u: Unwrapper | u.last.Some? ==> u.last.value < 256 witness FRESH

  /** The unwrapper once the first n references have gone through it. */
  function Through(u: PicUnwrapper, refs: seq<Entry>, n: nat): PicUnwrapper
    requires n <= |refs|
  {
    if n == 0 then u else Through(u, refs, n - 1).Moved(32768, refs[n - 1] % 32768)
  }

  function UnwrappedRefs(u: PicUnwrapper, refs: seq<Entry>, n: nat): (r: seq<int>)
    requires n <= |refs|
    ensures |r| == n
  {
    if n == 0 then [] else UnwrappedRefs(u, refs, n - 1) + [Through(u, refs, n).unwrapped]
  }

  /** The frame with the given references and its own id unwrapped, in this order. */
  function Named(u: PicUnwrapper, f: Vp8Frame, refs: seq<Entry>): Vp8Frame {
    f.(refs := UnwrappedRefs(u, refs, |refs|), id := UnwrapperAfter(u, f, refs).unwrapped)
  }

  function UnwrapperAfter(u: PicUnwrapper, f: Vp8Frame, refs: seq<Entry>): PicUnwrapper {
    Through(u, refs, |refs|).Moved(32768, f.Pid())
  }

  /** out is the frame with its id and the given references unwrapped. */
  ghost predicate RefersTo(out: Vp8Frame, frame: Vp8Frame, refs: seq<int>) {
    && out == frame.(id := out.id, refs := out.refs) && out.id % 32768 == frame.Pid()
    && |out.refs| == |refs| && forall i :: 0 <= i < |refs| ==> out.refs[i] % 32768 == refs[i]
  }

  lemma {:induction false} RefsResidue(u: PicUnwrapper, refs: seq<Entry>, n: nat)
    requires u.Valid(32768) && n <= |refs| && -1 !in refs
    ensures Through(u, refs, n).Valid(32768)
    ensures forall i :: 0 <= i < n ==> UnwrappedRefs(u, refs, n)[i] % 32768 == refs[i]
  {
    if n > 0 {
      RefsResidue(u, refs, n - 1);
      assert refs[n - 1] in refs;
      PeekResidue(Through(u, refs, n - 1), 32768, refs[n - 1]);
    }
  }

  /** Unwrapped ids are the picture ids modulo 2^15. */
  lemma NamedResidue(u: PicUnwrapper, f: Vp8Frame, refs: seq<Entry>)
    requires u.Valid(32768) && -1 !in refs
    ensures RefersTo(Named(u, f, refs), f, refs) && UnwrapperAfter(u, f, refs).Valid(32768)
  {
    RefsResidue(u, refs, |refs|);
    PeekResidue(Through(u, refs, |refs|), 32768, f.Pid());
  }

  // ---- One frame ----------------------------------------------------------------------

  datatype State = State(last: Entry, notYet: set<PicId>, info: LayerInfo, unwrapper: PicUnwrapper, tl0: Tl0Unwrapper)

  const NOTHING := State(-1, {}, map[], FRESH, FRESH)

  /** The base-layer frame counter of a frame, unwrapped. */
  function Tl0(s: State, f: Vp8Frame): int { s.tl0.Peek(256, f.tl0PicIdx % 256) }

  /** The frame's picture id and base-layer counter are noted, and old base-layer frames forgotten. */
  ghost function Noted(s: State, f: Vp8Frame): State {
    var from := CountFrom(s.last, f.Pid());
    State(if Newer(f.Pid(), from) then f.Pid() else from, Expected(s.notYet, from, f.Pid()),
          Recent(s.info, Tl0(s, f)), s.unwrapper, s.tl0.Moved(256, f.tl0PicIdx % 256))
  }

  ghost function Verdict(s: State, f: Vp8Frame): Decision {
    if f.temporalIdx >= 5 then Drop else DecideVp8(Noted(s, f).info, Noted(s, f).notYet, f, Tl0(s, f))
  }

  /** The 15-bit references a frame gets when it is handed off. */
  ghost function LayerRefs(s: State, f: Vp8Frame): seq<Entry>
    requires f.temporalIdx < 5
  { References(Noted(s, f).info, f, Tl0(s, f)) }

  /** The state once the frame has been decided about, given the state in which it was noted. */
  ghost function Decided(s: State, f: Vp8Frame, tl0: int, d: Decision): State
    requires f.temporalIdx < 5
  {
    match d
    case HandOff =>
      s.(info := Propagated(Opened(s.info, f, tl0), tl0, f.temporalIdx, f.Pid()), notYet := s.notYet - {f.Pid()},
      unwrapper := UnwrapperAfter(s.unwrapper, f, References(s.info, f, tl0)))
    case _ => if f.isKey then s else s.(info := Opened(s.info, f, tl0))
  }

  /** The new state, the decision, and the frame, with its id and references if it is handed off. */
  ghost function Managed(s: State, f: Vp8Frame): (State, Decision, Vp8Frame) {
    if f.temporalIdx >= 5 then (s, Drop, f)
    else
      var d := Verdict(s, f);
      (Decided(Noted(s, f), f, Tl0(s, f), d), d, if d == HandOff then Named(s.unwrapper, f, LayerRefs(s, f)) else f)
  }

  /** Everything on the layers was handed off, and everything handed off is sound. */
  ghost predicate Core(s: State, history: seq<Vp8Frame>) {
    s.unwrapper.Valid(32768) && InfoOk(s.info, Known(history)) && SoundHistory(history)
  }

  /** One frame keeps this; a frame handed off gets references to frames handed off before. */
  lemma ManagedCore(s: State, f: Vp8Frame, history: seq<Vp8Frame>)
    requires Core(s, history)
    ensures var (s', d, g) := Managed(s, f);
            && Core(s', if d == HandOff then history + [g] else history)
            && (d == HandOff ==> f.temporalIdx < 5 && RefersTo(g, f, LayerRefs(s, f)))
  {
    if f.temporalIdx < 5 {
      var n, tl0, known := Noted(s, f), Tl0(s, f), Known(history);
      assert InfoOk(n.info, known);
      if Verdict(s, f) == HandOff {
        ReferencesKnown(n.info, n.notYet, f, tl0, known);
        NamedResidue(s.unwrapper, f, LayerRefs(s, f));
        EnteredOk(n.info, n.notYet, f, tl0, known);
        HandedKnown(Named(s.unwrapper, f, LayerRefs(s, f)), f, LayerRefs(s, f), history);
      }
    }
  }

  lemma HandedKnown(g: Vp8Frame, f: Vp8Frame, refs: seq<Entry>, history: seq<Vp8Frame>)
    requires RefersTo(g, f, refs) && SoundHistory(history) && |refs| == RefCount(f)
    requires forall i :: 0 <= i < |refs| ==> (i, refs[i] as int) in Known(history)
    ensures SoundHistory(history + [g])
    ensures Known(history + [g]) == Known(history) + {(f.temporalIdx as int, f.Pid() as int)}
  {
    HistoryGrows(history, g);
  }
}
