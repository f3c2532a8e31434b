/** A VP8 stream without loss, on up to five temporal layers: every frame is handed off at once, with references to
    the latest frames on the layers it depends on, across every wrap of picture ids and base-layer counters. */
module Vp8Stream {
  import opened Options
  import opened Unwrapping
  import opened GopMap
  import opened Vp8Layers
  import opened Vp8Machine
  import opened Vp8Laws

  /** A frame on a temporal layer: a key frame, a frame that depends on the base layer only, or one that depends on
      all layers up to its own. */
  datatype Item = Item(layer: nat, sync: bool, key: bool)

  /** The number of the current base-layer frame, and the latest frame on each layer, -1 for none. */
  datatype Stand = Stand(base: int, layers: seq<int>)

  const NO_FRAME := Stand(-1, [-1, -1, -1, -1, -1])

  const NEAR: int := 16000

  predicate Near(x: int, n: nat) { 0 <= x < n <= x + NEAR }

  /** The n-th frame may follow: what it depends on is there, and not too long ago. */
  ghost predicate Follows(item: Item, n: nat, t: Stand) {
    && item.layer < 5 && |t.layers| == 5 && (item.key ==> item.layer == 0) && (n == 0 ==> item.key)
    && (!item.key ==> Near(t.layers[0], n))
    && (!item.key && item.layer > 0 && item.sync ==> t.layers[item.layer] == -1 || Near(t.layers[item.layer], n))
    && (!item.key && item.layer > 0 && !item.sync ==> forall i :: 0 <= i <= item.layer ==> Near(t.layers[i], n))
  }

  function Next(t: Stand, item: Item, n: nat): Stand
    requires |t.layers| == 5 && item.layer < 5
  {
    var id: int := n;
    if item.key then Stand(t.base + 1, [id, -1, -1, -1, -1])
    else Stand(if item.layer == 0 then t.base + 1 else t.base, t.layers[item.layer := n])
  }

  /** The n-th frame on the wire, and as it is handed off. */
  function FrameOf(t: Stand, item: Item, n: nat): Vp8Frame {
    Vp8Frame(0, item.key, n, if item.layer == 0 then t.base + 1 else t.base, item.layer, item.sync, 0, [])
  }

  function RefsOf(t: Stand, item: Item): seq<int>
    requires |t.layers| == 5 && item.layer < 5
  {
    if item.key then [] else if item.layer == 0 || item.sync then [t.layers[0]] else t.layers[..item.layer + 1]
  }

  function HandedOff(t: Stand, item: Item, n: nat): Vp8Frame
    requires |t.layers| == 5 && item.layer < 5
  { FrameOf(t, item, n).(id := n, refs := RefsOf(t, item)) }

  // ---- Picture ids ---------------------------------------------------------------------------------

  function Pic(n: int): PicId { n % 32768 }

  function EntryOf(x: int): Entry { if x < 0 then -1 else Pic(x) }

  function LayersOf(layers: seq<int>): Layers
    requires |layers| == 5
  { seq(5, i requires 0 <= i < 5 => EntryOf(layers[i])) }

  lemma InOrder(x: int, n: nat)
    requires Near(x, n)
    ensures Newer(Pic(n), Pic(x)) && !Newer(Pic(x), Pic(n)) && Pic(x) != Pic(n)
  {
  }

  lemma Unwraps(x: int, n: int)
    requires -NEAR <= n - x <= NEAR
    ensures Unwrapper(Some(Pic(x)), x).Moved(32768, Pic(n)) == Unwrapper(Some(Pic(n)), n)
  {
  }

  lemma Tl0Unwraps(b: int, c: int)
    requires b <= c <= b + 1
    ensures Unwrapper(Some(b % 256), b).Peek(256, c % 256) == c
  {
  }

  // ---- The state -----------------------------------------------------------------------------------

  /** The finder's state after n frames. */
  ghost predicate Ready(s: State, n: nat, t: Stand) {
    && n > 0 && |t.layers| == 5 && t.base >= 0
    && s.last == Pic(n - 1) && s.notYet == {} && s.unwrapper == Unwrapper(Some(Pic(n - 1)), n - 1)
    && s.tl0 == Unwrapper(Some(t.base % 256), t.base)
    && t.base in s.info && s.info[t.base] == LayersOf(t.layers) && forall k :: k in s.info ==> k <= t.base
  }

  lemma SeenNext(last: Entry, n: nat)
    requires n > 0 && last == Pic(n - 1)
    ensures CountFrom(last, Pic(n)) == last && Newer(Pic(n), last)
    ensures Expected({}, last, Pic(n)) == {Pic(n)}
  {
    var from: PicId, id := last, Pic(n);
    assert Forward(32768, from, id) == 1;
    assert Upto(from, id) == {id};
  }

  lemma NotedNext(s: State, n: nat, t: Stand, f: Vp8Frame, base: int)
    requires Ready(s, n, t) && f.Pid() == Pic(n) && f.tl0PicIdx == base && t.base <= base <= t.base + 1
    ensures Tl0(s, f) == base
    ensures Noted(s, f) == State(Pic(n), {Pic(n)}, Recent(s.info, base), s.unwrapper, Unwrapper(Some(base % 256), base))
  {
    SeenNext(s.last, n);
    Tl0Unwraps(t.base, base);
  }

  /** What the frame builds on. */
  ghost predicate Builds(info: LayerInfo, t: Stand) {
    && |t.layers| == 5 && t.base in info && info[t.base] == LayersOf(t.layers)
    && forall k :: k in info ==> k <= t.base
  }

  lemma RecentBuilds(s: State, n: nat, t: Stand, base: int)
    requires Ready(s, n, t) && t.base <= base <= t.base + 1
    ensures Builds(Recent(s.info, base), t)
  {
  }

  lemma Decides(info: LayerInfo, notYet: set<PicId>, f: Vp8Frame, n: nat, t: Stand, item: Item, base: int)
    requires Builds(info, t) && Follows(item, n, t) && f == FrameOf(t, item, n) && notYet == {Pic(n)}
    requires base == if item.layer == 0 then t.base + 1 else t.base
    ensures f.temporalIdx < 5 && DecideVp8(info, notYet, f, base) == HandOff
    ensures References(info, f, base) == Entries(RefsOf(t, item))
  {
    var v := LayersOf(t.layers);
    if !item.key {
      InOrder(t.layers[0], n);
      if item.layer > 0 && item.sync && t.layers[item.layer] != -1 { InOrder(t.layers[item.layer], n); }
      if item.layer > 0 && !item.sync {
        forall i | 0 <= i <= item.layer ensures v[i] != -1 && Newer(Pic(n), v[i]) && !Awaited(notYet, v[i], Pic(n)) {
          InOrder(t.layers[i], n);
        }
        ScannedIff(v, notYet, Pic(n), item.layer, 0);
      }
    }
  }

  // ---- References ------------------------------------------------------------------------------------

  function Entries(xs: seq<int>): seq<Entry> { seq(|xs|, i requires 0 <= i < |xs| => EntryOf(xs[i])) }

  ghost predicate AllNear(xs: seq<int>, n: nat) { forall i :: 0 <= i < |xs| ==> Near(xs[i], n) }

  lemma RefsNear(t: Stand, item: Item, n: nat)
    requires Follows(item, n, t)
    ensures AllNear(RefsOf(t, item), n)
  {
  }

  lemma {:induction false} RefsUnwrap(u: PicUnwrapper, xs: seq<int>, n: nat, k: nat)
    requires n > 0 && u == Unwrapper(Some(Pic(n - 1)), n - 1) && AllNear(xs, n) && k <= |xs|
    ensures UnwrappedRefs(u, Entries(xs), k) == xs[..k]
    ensures Through(u, Entries(xs), k) == if k == 0 then u else Unwrapper(Some(Pic(xs[k - 1])), xs[k - 1])
  {
    if k > 0 {
      RefsUnwrap(u, xs, n, k - 1);
      assert Near(xs[k - 1], n);
      if k > 1 { assert Near(xs[k - 2], n); }
      RefUnwraps(u, xs, k, if k == 1 then n - 1 else xs[k - 2], xs[k - 1]);
    }
  }

  lemma RefUnwraps(u: PicUnwrapper, xs: seq<int>, k: nat, before: int, x: int)
    requires 0 < k <= |xs| && x == xs[k - 1] >= 0 && -NEAR <= x - before <= NEAR
    requires Through(u, Entries(xs), k - 1) == Unwrapper(Some(Pic(before)), before)
    requires UnwrappedRefs(u, Entries(xs), k - 1) == xs[..k - 1]
    ensures UnwrappedRefs(u, Entries(xs), k) == xs[..k] && Through(u, Entries(xs), k) == Unwrapper(Some(Pic(x)), x)
  {
    Unwraps(before, x);
    PicAgain(Pic(x));
    assert Entries(xs)[k - 1] == Pic(x) && xs[..k] == xs[..k - 1] + [x];
    ThroughNext(u, Entries(xs), k, Pic(x));
  }

  lemma PicAgain(p: PicId)
    ensures p % 32768 == p
  {
  }

  lemma ThroughNext(u: PicUnwrapper, refs: seq<Entry>, k: nat, p: PicId)
    requires 0 < k <= |refs| && refs[k - 1] == p && p % 32768 == p
    ensures Through(u, refs, k) == Through(u, refs, k - 1).Moved(32768, p)
    ensures UnwrappedRefs(u, refs, k) == UnwrappedRefs(u, refs, k - 1) + [Through(u, refs, k).unwrapped]
  {
  }

  lemma NamedNext(u: PicUnwrapper, f: Vp8Frame, n: nat, xs: seq<int>)
    requires n > 0 && u == Unwrapper(Some(Pic(n - 1)), n - 1) && AllNear(xs, n) && f.Pid() == Pic(n)
    ensures Named(u, f, Entries(xs)) == f.(id := n, refs := xs)
    ensures UnwrapperAfter(u, f, Entries(xs)) == Unwrapper(Some(Pic(n)), n)
  {
    RefsUnwrap(u, xs, n, |xs|);
    assert xs[..|xs|] == xs;
    if xs != [] { assert Near(xs[|xs| - 1], n); }
    Unwraps(if xs == [] then n - 1 else xs[|xs| - 1], n);
  }

  // ---- One frame --------------------------------------------------------------------------------------

  lemma EntersLayers(info: LayerInfo, notYet: set<PicId>, f: Vp8Frame, n: nat, t: Stand, item: Item, base: int)
    requires Builds(info, t) && Follows(item, n, t) && f == FrameOf(t, item, n) && f.temporalIdx < 5
    requires base == (if item.layer == 0 then t.base + 1 else t.base) && DecideVp8(info, notYet, f, base) == HandOff
    ensures Builds(Propagated(Opened(info, f, base), base, f.temporalIdx, f.Pid()), Next(t, item, n))
  {
    var wider := Opened(info, f, base);
    EnteredAt(info, notYet, f, base);
    PropagatedIs(wider, base, f.temporalIdx, f.Pid(), base);
    assert Reaches(wider, base, base, f.temporalIdx, f.Pid());
    NextLayers(t, item, n);
  }

  lemma NextLayers(t: Stand, item: Item, n: nat)
    requires |t.layers| == 5 && item.layer < 5
    ensures LayersOf(Next(t, item, n).layers) ==
            if item.key then KeyLayers(Pic(n)) else LayersOf(t.layers)[item.layer := Pic(n)]
  {
  }

  /** One frame more: it is handed off with the right references. */
  lemma FrameNext(s: State, n: nat, t: Stand, item: Item, f: Vp8Frame, base: int, s': State)
    requires Ready(s, n, t) && Follows(item, n, t) && f == FrameOf(t, item, n)
    requires base == (if item.layer == 0 then t.base + 1 else t.base) && s' == Managed(s, f).0
    ensures Managed(s, f) == (s', HandOff, HandedOff(t, item, n)) && Ready(s', n + 1, Next(t, item, n))
  {
    NotedNext(s, n, t, f, base);
    RecentBuilds(s, n, t, base);
    Decides(Noted(s, f).info, Noted(s, f).notYet, f, n, t, item, base);
    RefsNear(t, item, n);
    NamedNext(s.unwrapper, f, n, RefsOf(t, item));
    EntersLayers(Noted(s, f).info, Noted(s, f).notYet, f, n, t, item, base);
  }

  /** The first frame. */
  lemma FrameFirst(item: Item, f: Vp8Frame, s': State)
    requires Follows(item, 0, NO_FRAME) && f == FrameOf(NO_FRAME, item, 0) && s' == Managed(NOTHING, f).0
    ensures Managed(NOTHING, f) == (s', HandOff, HandedOff(NO_FRAME, item, 0)) && Ready(s', 1, Next(NO_FRAME, item, 0))
  {
    assert Noted(NOTHING, f) == State(0, {}, map[], FRESH, Unwrapper(Some(0), 0)) by {
      assert Expected({}, 0, 0) == {};
      assert Recent(map[], 0) == map[];
    }
    EnteredAt(map[], {}, f, 0);
    PropagatedIs(Opened(map[], f, 0), 0, 0, 0, 0);
    assert Reaches(Opened(map[], f, 0), 0, 0, 0, 0);
    NextLayers(NO_FRAME, item, 0);
  }

  // ---- Whole runs -----------------------------------------------------------------------------------------

  function StandAfter(items: seq<Item>): (t: Stand)
    ensures |t.layers| == 5
  {
    if items == [] then NO_FRAME
    else
      var t, item := StandAfter(items[..|items| - 1]), items[|items| - 1];
      if item.layer < 5 then Next(t, item, |items| - 1) else t
  }

  /** Every frame of the stream may follow those before it. */
  ghost predicate GoodStream(items: seq<Item>) {
    items == [] ||
    (GoodStream(items[..|items| - 1]) && Follows(items[|items| - 1], |items| - 1, StandAfter(items[..|items| - 1])))
  }

  function Ops(items: seq<Item>): seq<Op> {
    if items == [] then []
    else
      var before := items[..|items| - 1];
      Ops(before) + [Manage(FrameOf(StandAfter(before), items[|items| - 1], |before|))]
  }

  ghost function AllHandedOff(items: seq<Item>): seq<Vp8Frame>
    requires GoodStream(items)
  {
    if items == [] then []
    else
      var before := items[..|items| - 1];
      AllHandedOff(before) + [HandedOff(StandAfter(before), items[|items| - 1], |before|)]
  }

  lemma TakenAtOnce(m: Finder, f: Vp8Frame, s: State, g: Vp8Frame)
    requires m.stash == [] && Managed(m.state, f) == (s, HandOff, g)
    ensures Managing(m, f) == Outcome(Finder(s, []), [g], [f], [], [], [])
  {
    assert Retried(s, []) == Quiet(Finder(s, []));
  }

  /** What comes of a run. The guard keeps its steps from being unfolded wherever they are only passed on. */
  type Runs = seq<Op> -> Outcome

  predicate Look(b: bool) { b }

  ghost predicate Tracks(A: Runs) {
    && A([]) == Quiet(EMPTY)
    && forall b, ops: seq<Op>, op: Op {:trigger Look(b), A(ops + [op])} ::
         Look(b) ==> A(ops + [op]) == Then(A(ops), Step(A(ops).finder, op))
  }

  lemma AfterTracks()
    ensures Tracks(After)
  {
    forall ops: seq<Op>, op: Op ensures After(ops + [op]) == Then(After(ops), Step(After(ops).finder, op)) {
      assert (ops + [op])[..|ops|] == ops;
    }
  }

  /** What a run over the first frames comes to. */
  ghost predicate Standing(r: Outcome, n: nat, t: Stand, out: seq<Vp8Frame>) {
    && r.out == out && r.finder.stash == [] && Lost(r) == multiset{}
    && if n == 0 then r.finder.state == NOTHING && t == NO_FRAME else Ready(r.finder.state, n, t)
  }

  lemma StandingNext(r: Outcome, n: nat, t: Stand, out: seq<Vp8Frame>, item: Item)
    requires Standing(r, n, t, out) && Follows(item, n, t)
    ensures Standing(Then(r, Managing(r.finder, FrameOf(t, item, n))), n + 1, Next(t, item, n),
                     out + [HandedOff(t, item, n)])
  {
    var s, f := r.finder.state, FrameOf(t, item, n);
    var s' := Managed(s, f).0;
    if n == 0 {
      FrameFirst(item, f, s');
    } else {
      FrameNext(s, n, t, item, f, if item.layer == 0 then t.base + 1 else t.base, s');
    }
    TakenAtOnce(r.finder, f, s', HandedOff(t, item, n));
  }

  lemma {:induction false} StreamStands(A: Runs, items: seq<Item>)
    requires Tracks(A) && GoodStream(items)
    ensures Standing(A(Ops(items)), |items|, StandAfter(items), AllHandedOff(items))
    decreases |items|
  {
    if items != [] {
      var before, item := items[..|items| - 1], items[|items| - 1];
      StreamStands(A, before);
      OpNext(A, Ops(before), FrameOf(StandAfter(before), item, |before|));
      StreamNext(items, before, item, A(Ops(before)), A(Ops(items)));
    }
  }

  lemma OpNext(A: Runs, ops: seq<Op>, f: Vp8Frame)
    requires Tracks(A)
    ensures A(ops + [Manage(f)]) == Then(A(ops), Managing(A(ops).finder, f))
  {
    assert Look(true);
  }

  lemma StreamNext(items: seq<Item>, before: seq<Item>, item: Item, r: Outcome, r': Outcome)
    requires GoodStream(items) && items == before + [item] && GoodStream(before)
    requires Standing(r, |before|, StandAfter(before), AllHandedOff(before))
    requires r' == Then(r, Managing(r.finder, FrameOf(StandAfter(before), item, |before|)))
    ensures Standing(r', |items|, StandAfter(items), AllHandedOff(items))
  {
    assert items[..|items| - 1] == before;
    StandingNext(r, |before|, StandAfter(before), AllHandedOff(before), item);
  }

  /** All frames of the stream are handed off, in order, under their numbers and with references to the latest frames
      on the layers they depend on; none waits and none is lost. */
  lemma StreamDelivered(items: seq<Item>)
    requires GoodStream(items)
    ensures var r := After(Ops(items));
            r.out == AllHandedOff(items) && r.finder.stash == [] && Lost(r) == multiset{}
  {
    AfterTracks();
    StreamStands(After, items);
  }
}
