/** A stream of frames and padding without loss: every number belongs to a frame or is reported as padding. Each
    frame is handed off with a reference to the one before, however long the stream is. */
module PaddedStream {
  import opened Options
  import opened SeqNums
  import opened FrameTypes
  import opened Unwrapping
  import opened GopMap
  import opened SeqNumState
  import opened SeqNumMachine

  /** So many numbers of padding, and behind them a frame of so many packets. An early frame arrives before the
      padding in front of it. */
  datatype Item = Item(fill: nat, packets: nat, early: bool)

  const MAX_SPAN: nat := 22000

  ghost predicate GoodItem(item: Item, n: nat) {
    item.packets > 0 && item.fill + item.packets <= MAX_SPAN && (n == 0 ==> item.fill == 0)
  }

  ghost predicate GoodItems(items: seq<Item>) {
    forall k {:trigger GoodItem(items[k], k)} :: 0 <= k < |items| ==> GoodItem(items[k], k)
  }

  /** The last number of an item that follows the number i. */
  function EndOf(i: int, item: Item): int { i + item.fill + item.packets }

  /** The frame of the n-th item; the first frame is a key frame. */
  function FrameOf(i: int, n: nat, item: Item): Frame {
    var kind := if n == 0 then KeyFrame else DeltaFrame;
    Frame(n, EndOf(i, item), Low(i + item.fill + 1), Low(EndOf(i, item)), kind, 0, [])
  }

  /** The frame as it is handed off. */
  function HandedOff(i: int, n: nat, item: Item): Frame {
    FrameOf(i, n, item).(id := EndOf(i, item), refs := if n == 0 then [] else [i])
  }

  /** The numbers i + 1, .., i + n as padding. */
  function Pads(i: int, n: nat): seq<Op> { if n == 0 then [] else Pads(i, n - 1) + [Padding(i + n)] }

  function OpsOf(i: int, n: nat, item: Item): seq<Op> {
    var frame := [Manage(FrameOf(i, n, item))];
    if item.early then frame + Pads(i, item.fill) else Pads(i, item.fill) + frame
  }

  /** The last number of a stream that starts with the number 0. */
  function LastOf(items: seq<Item>): int {
    if items == [] then -1 else EndOf(LastOf(items[..|items| - 1]), items[|items| - 1])
  }

  function Ops(items: seq<Item>): seq<Op> {
    if items == [] then []
    else
      var before := items[..|items| - 1];
      Ops(before) + OpsOf(LastOf(before), |before|, items[|items| - 1])
  }

  function AllHandedOff(items: seq<Item>): seq<Frame> {
    if items == [] then []
    else
      var before := items[..|items| - 1];
      AllHandedOff(before) + [HandedOff(LastOf(before), |before|, items[|items| - 1])]
  }

  // ---- The finder on the way -------------------------------------------------------------

  /** One group, whose key is not more than 10000 numbers old: its last frame ends at i, and padding reaches to p. */
  function OneGroup(key: int, i: int, p: int): State {
    State([Gop(Low(key), Low(i), Low(p))], {}, Unwrapper(Some(Low(i)), i))
  }

  predicate Recent(key: int, p: int) { key <= p <= key + REKEY_DISTANCE }

  function KeyFor(key: int, p: int): int { if p - key > REKEY_DISTANCE then p else key }

  lemma InOrder(a: int, b: int)
    requires a <= b <= a + 32000
    ensures !AheadOf(Low(a), Low(b)) && ForwardDiff(Low(a), Low(b)) == b - a && (a < b ==> AheadOf(Low(b), Low(a)))
  {
    FullLow(a, b);
  }

  lemma InSequence(p: int)
    ensures Next(Low(p)) == Low(p + 1) && Prev(Low(p + 1)) == Low(p)
  {
  }

  // Steps of a finder with one group on sequence numbers.

  lemma FoundIn(g: seq<Gop>, x: SeqNum)
    requires |g| == 1 && !AheadOf(g[0].key, x)
    ensures UpperBound(g, x) == 1
  {
    assert UpperBound(g, x, 1) == 1;
  }

  lemma KeptIn(g: seq<Gop>, x: SeqNum)
    requires |g| == 1
    ensures Stale(g, Minus(x, MAX_GOP_AGE)) == 0
  {
  }

  lemma NoPad(none: set<SeqNum>, x: SeqNum)
    requires none == {}
    ensures PadEnd(none, x) == x && PadRest(none, x) == {}
  {
  }

  lemma OnePad(p: SeqNum, x: SeqNum)
    requires x == Next(p)
    ensures PadEnd({x}, p) == x && PadRest({x}, p) == {}
  {
    NoPad({x} - {x}, x);
  }

  lemma PaddedOne(g: seq<Gop>, padding: set<SeqNum>, x: SeqNum, end: SeqNum)
    requires |g| == 1 && UpperBound(g, x) == 1
    requires PadEnd(padding, g[0].pad) == end && PadRest(padding, g[0].pad) == {}
    ensures Padded(g, padding, x) ==
            [Gop(if ForwardDiff(g[0].key, x) > REKEY_DISTANCE then x else g[0].key, g[0].pic, end)]
    ensures PaddingLeft(g, padding, x) == {}
  {
  }

  lemma PadJoins(s: State, x: SeqNum)
    requires |s.gop| == 1 && s.padding == {} && x == Next(s.gop[0].pad) && !AheadOf(s.gop[0].key, x)
    ensures var e := s.gop[0];
            WithPadding(s, x) ==
            State([Gop(if ForwardDiff(e.key, x) > REKEY_DISTANCE then x else e.key, e.pic, x)], {}, s.unwrapper)
  {
    assert MorePadding(s.padding, x) == {x};
    OnePad(s.gop[0].pad, x);
    FoundIn(s.gop, x);
    PaddedOne(s.gop, {x}, x, x);
  }

  lemma WaitsIn(s: State, f: Frame)
    requires f.kind.DeltaFrame? && |s.gop| == 1 && !AheadOf(s.gop[0].key, f.last) && s.gop[0].pad != Prev(f.first)
    ensures Managed(s, f) == (s, Stash, f)
  {
    FoundIn(s.gop, f.last);
    KeptIn(s.gop, f.last);
    WaitsThere(s, f);
  }

  lemma WaitsThere(s: State, f: Frame)
    requires f.kind.DeltaFrame? && |s.gop| == 1 && s.gop[0].pad != Prev(f.first)
    requires UpperBound(s.gop, f.last) == 1 && Stale(s.gop, Minus(f.last, MAX_GOP_AGE)) == 0
    ensures Managed(s, f) == (s, Stash, f)
  {
  }

  lemma ExtendedOne(g: seq<Gop>, x: SeqNum)
    requires |g| == 1 && AheadOf(x, g[0].pic)
    ensures Extended(g, 0, x) == [Gop(g[0].key, x, x)]
  {
  }

  /** The frame becomes the last one of the group. */
  lemma JoinsIn(s: State, f: Frame, k: SeqNum, u: SeqUnwrapper)
    requires |s.gop| == 1 && s.padding == {} && s.unwrapper.last == Some(s.gop[0].pic) && f.kind.DeltaFrame?
    requires UpperBound([Gop(s.gop[0].key, f.last, f.last)], f.last) == 1
    requires AheadOf(f.last, s.gop[0].pic) && u == s.unwrapper.Moved(M, f.last)
    requires k == if ForwardDiff(s.gop[0].key, f.last) > REKEY_DISTANCE then f.last else s.gop[0].key
    ensures Joined(s, 0, f) ==
            (State([Gop(k, f.last, f.last)], {}, u), f.(id := u.unwrapped, refs := [s.unwrapper.unwrapped]))
  {
    var x := f.last;
    assert s.unwrapper.Moved(M, s.gop[0].pic) == s.unwrapper;
    ExtendedOne(s.gop, x);
    NoPad(s.padding, x);
    PaddedOne([Gop(s.gop[0].key, x, x)], s.padding, x, x);
  }

  lemma TakenIn(s: State, f: Frame, k: SeqNum, u: SeqUnwrapper)
    requires |s.gop| == 1 && s.padding == {} && s.unwrapper.last == Some(s.gop[0].pic) && f.kind.DeltaFrame?
    requires !AheadOf(s.gop[0].key, f.last) && AheadOf(f.last, s.gop[0].pic) && u == s.unwrapper.Moved(M, f.last)
    requires k == if ForwardDiff(s.gop[0].key, f.last) > REKEY_DISTANCE then f.last else s.gop[0].key
    requires s.gop[0].pad == Prev(f.first)
    ensures Managed(s, f) ==
            (State([Gop(k, f.last, f.last)], {}, u), HandOff,
             f.(id := u.unwrapped, refs := [s.unwrapper.unwrapped]))
  {
    FoundIn(s.gop, f.last);
    KeptIn(s.gop, f.last);
    TakenThere(s, f);
    FoundIn([Gop(s.gop[0].key, f.last, f.last)], f.last);
    JoinsIn(s, f, k, u);
  }

  lemma TakenThere(s: State, f: Frame)
    requires f.kind.DeltaFrame? && |s.gop| == 1 && s.gop[0].pad == Prev(f.first)
    requires UpperBound(s.gop, f.last) == 1 && Stale(s.gop, Minus(f.last, MAX_GOP_AGE)) == 0
    ensures var (t, f') := Joined(s, 0, f); Managed(s, f) == (t, HandOff, f')
  {
  }

  // What the machine does is stated behind a guard, which keeps it from being unfolded wherever it is only passed on.

  predicate Look(b: bool) { b }

  ghost predicate PadsTo(s: State, p: int, t: State) {
    forall b {:trigger Look(b)} :: Look(b) ==> WithPadding(s, Low(p)) == t
  }

  ghost predicate Manages(s: State, f: Frame, t: State, d: Decision, g: Frame) {
    forall b {:trigger Look(b)} :: Look(b) ==> Managed(s, f) == (t, d, g)
  }

  // The same on unbounded numbers.

  /** Padding that directly follows moves the end of the group. */
  lemma PadMoves(key: int, i: int, p: int, q: int, key': int)
    requires Recent(key, p) && q == p + 1 && key' == KeyFor(key, q)
    ensures PadsTo(OneGroup(key, i, p), q, OneGroup(key', i, q))
  {
    InOrder(key, q);
    InSequence(p);
    PadJoins(OneGroup(key, i, p), Low(q));
  }

  /** A delta frame waits as long as padding does not reach up to it, */
  lemma DeltaWaits(key: int, i: int, p: int, n: nat, item: Item)
    requires key <= p && n > 0 && GoodItem(item, n) && i <= p < i + item.fill && EndOf(i, item) <= key + 32000
    ensures var s, f := OneGroup(key, i, p), FrameOf(i, n, item); Manages(s, f, s, Stash, f)
  {
    InOrder(key, EndOf(i, item));
    InSequence(i + item.fill);
    InOrder(p, i + item.fill);
    WaitsIn(OneGroup(key, i, p), FrameOf(i, n, item));
  }

  lemma MovesBy(i: int, e: int)
    requires i <= e <= i + 32000
    ensures Unwrapper(Some(Low(i)), i).Moved(M, Low(e)) == Unwrapper(Some(Low(e)), e)
  {
    FullLow(i, e);
  }

  /** and is handed off once it does. */
  lemma DeltaManaged(key: int, i: int, p: int, n: nat, item: Item, e: int, key': int)
    requires p == i + item.fill && key <= p && n > 0 && GoodItem(item, n) && e == EndOf(i, item) <= key + 32000
    requires key' == KeyFor(key, e)
    ensures Manages(OneGroup(key, i, p), FrameOf(i, n, item), OneGroup(key', e, e), HandOff, HandedOff(i, n, item))
  {
    InOrder(key, e);
    InOrder(i, e);
    InSequence(p);
    MovesBy(i, e);
    TakenIn(OneGroup(key, i, p), FrameOf(i, n, item), Low(key'), Unwrapper(Some(Low(e)), e));
  }

  // ---- The first frame ---------------------------------------------------------------------

  /** A key frame starts the first group. */
  lemma StartsFirst(s: State, f: Frame, x: SeqNum, t: State)
    requires f.kind.KeyFrame? && f.last == x && s.gop == [] && t == s.(gop := [Gop(x, x, x)])
    ensures var (u, f') := Joined(t, 0, f); Managed(s, f) == (u, HandOff, f')
  {
    assert LowerBound(s.gop, x) == 0;
    assert Started(s.gop, f) == t.gop;
    FoundIn(t.gop, x);
    KeptIn(t.gop, x);
    StartedThere(s, f, t);
  }

  lemma StartedThere(s: State, f: Frame, t: State)
    requires f.kind.KeyFrame? && |t.gop| == 1 && t == s.(gop := Started(s.gop, f))
    requires UpperBound(t.gop, f.last) == 1 && Stale(t.gop, Minus(f.last, MAX_GOP_AGE)) == 0
    ensures var (u, f') := Joined(t, 0, f); Managed(s, f) == (u, HandOff, f')
  {
  }

  lemma FirstJoined(item: Item, e: int)
    requires GoodItem(item, 0) && e == EndOf(-1, item)
    ensures Joined(State([Gop(Low(e), Low(e), Low(e))], {}, FRESH), 0, FrameOf(-1, 0, item)) ==
            (OneGroup(e, e, e), HandedOff(-1, 0, item))
  {
    assert Low(e) == e;
    JoinsFirst(State([Gop(e, e, e)], {}, FRESH), FrameOf(-1, 0, item), e);
  }

  lemma JoinsFirst(s: State, f: Frame, x: SeqNum)
    requires s == State([Gop(x, x, x)], {}, FRESH) && f.last == x && f.kind.KeyFrame?
    ensures Joined(s, 0, f) == (State([Gop(x, x, x)], {}, Unwrapper(Some(x), x)), f.(id := x, refs := []))
  {
    NoPad(s.padding, x);
    FoundIn(s.gop, x);
    PaddedOne(s.gop, s.padding, x, x);
    assert Extended(s.gop, 0, x) == s.gop;
  }

  lemma FirstManaged(item: Item, e: int)
    requires GoodItem(item, 0) && e == EndOf(-1, item)
    ensures Manages(EMPTY.state, FrameOf(-1, 0, item), OneGroup(e, e, e), HandOff, HandedOff(-1, 0, item))
  {
    StartsFirst(EMPTY.state, FrameOf(-1, 0, item), Low(e), State([Gop(Low(e), Low(e), Low(e))], {}, FRESH));
    FirstJoined(item, e);
  }

  // ---- One operation -------------------------------------------------------------------------

  /** The operation hands off the frames out. */
  ghost predicate Leads(m: Finder, op: Op, m': Finder, out: seq<Frame>) {
    forall b {:trigger Look(b)} :: Look(b) ==> Step(m, op) == Outcome(m', out, [])
  }

  lemma NothingWaits(s: State)
    ensures Retried(s, []) == Outcome(Finder(s, []), [], [])
  {
  }

  lemma GoesOnWaiting(s: State, f: Frame)
    requires Managed(s, f) == (s, Stash, f)
    ensures Retried(s, [f]) == Outcome(Finder(s, [f]), [], [])
  {
    assert Pass(s, [f], 1) == Outcome(Finder(s, [f]), [], []);
  }

  lemma WaitsNoLonger(s: State, f: Frame, t: State, g: Frame)
    requires Managed(s, f) == (t, HandOff, g)
    ensures Retried(s, [f]) == Outcome(Finder(t, []), [g], [])
  {
    assert Without([f], 0) == [];
    assert Pass(t, [], 0) == Outcome(Finder(t, []), [], []);
    assert Pass(s, [f], 0) == Outcome(Finder(t, []), [g], []);
    NothingWaits(t);
  }

  lemma PadQuiet(s: State, p: int, t: State)
    requires PadsTo(s, p, t)
    ensures Leads(Finder(s, []), Padding(p), Finder(t, []), [])
  {
    assert Look(true);
    NothingWaits(t);
  }

  lemma PadStill(s: State, p: int, t: State, f: Frame)
    requires PadsTo(s, p, t) && Manages(t, f, t, Stash, f)
    ensures Leads(Finder(s, [f]), Padding(p), Finder(t, [f]), [])
  {
    assert Look(true);
    GoesOnWaiting(t, f);
  }

  lemma PadFrees(s: State, p: int, t: State, f: Frame, u: State, g: Frame)
    requires PadsTo(s, p, t) && Manages(t, f, u, HandOff, g)
    ensures Leads(Finder(s, [f]), Padding(p), Finder(u, []), [g])
  {
    assert Look(true);
    WaitsNoLonger(t, f, u, g);
  }

  lemma FrameTaken(s: State, f: Frame, u: State, g: Frame)
    requires Manages(s, f, u, HandOff, g)
    ensures Leads(Finder(s, []), Manage(f), Finder(u, []), [g])
  {
    assert Look(true);
    NothingWaits(u);
  }

  lemma FrameStashed(s: State, f: Frame)
    requires Manages(s, f, s, Stash, f)
    ensures Leads(Finder(s, []), Manage(f), Finder(s, [f]), [])
  {
    assert Look(true);
    assert [f] + Trimmed([]) == [f];
  }

  // ---- Whole runs ----------------------------------------------------------------------------

  /** What comes of a run; only StandsNext looks into what it is. */
  type Runs = seq<Op> -> Outcome

  ghost predicate Tracks(A: Runs) {
    && A([]) == Outcome(EMPTY, [], [])
    && forall b, ops: seq<Op>, op: Op {:trigger Look(b), A(ops + [op])} ::
         Look(b) ==> A(ops + [op]) == Then(A(ops), Step(A(ops).finder, op))
  }

  lemma AfterTracks()
    ensures Tracks(After)
  {
    forall ops: seq<Op>, op: Op ensures After(ops + [op]) == Then(After(ops), Step(After(ops).finder, op)) {
      assert (ops + [op])[..|ops|] == ops;
    }
  }

  /** The run has handed off out, has lost nothing, and has the finder m. */
  ghost predicate Stands(A: Runs, ops: seq<Op>, out: seq<Frame>, m: Finder) {
    A(ops) == Outcome(m, out, [])
  }

  lemma StandsNext(A: Runs, ops: seq<Op>, out: seq<Frame>, m: Finder, op: Op, m': Finder, more: seq<Frame>,
                   all: seq<Frame>)
    requires Tracks(A) && Stands(A, ops, out, m) && Leads(m, op, m', more) && all == out + more
    ensures Stands(A, ops + [op], all, m')
  {
    assert Look(true);
  }

  /** Padding reaches to p; the frame behind it may be waiting for more. */
  ghost predicate Filled(A: Runs, ops: seq<Op>, out: seq<Frame>, i: int, p: int, key: int, waiting: seq<Frame>) {
    && Recent(key, p) && i <= p && i - REKEY_DISTANCE <= key
    && Stands(A, ops, out, Finder(OneGroup(key, i, p), waiting))
  }

  /** The next number of padding, with nothing waiting. */
  lemma FillNext(A: Runs, ops: seq<Op>, out: seq<Frame>, i: int, p: int, key: int, q: int, key': int)
    requires Tracks(A) && Filled(A, ops, out, i, p, key, []) && q == p + 1 && key' == KeyFor(key, q)
    ensures Filled(A, ops + [Padding(q)], out, i, q, key', [])
  {
    PadMoves(key, i, p, q, key');
    PadQuiet(OneGroup(key, i, p), q, OneGroup(key', i, q));
    StandsNext(A, ops, out, Finder(OneGroup(key, i, p), []), Padding(q), Finder(OneGroup(key', i, q), []), [], out);
  }

  /** The next number of padding, with the item's frame waiting for more. */
  lemma FillWaiting(A: Runs, ops: seq<Op>, out: seq<Frame>, i: int, n: nat, item: Item, p: int, key: int,
                    q: int, key': int, f: Frame)
    requires Tracks(A) && Filled(A, ops, out, i, p, key, [f]) && GoodItem(item, n) && n > 0 && f == FrameOf(i, n, item)
    requires q == p + 1 < i + item.fill && key' == KeyFor(key, q)
    ensures Filled(A, ops + [Padding(q)], out, i, q, key', [f])
  {
    PadMoves(key, i, p, q, key');
    DeltaWaits(key', i, q, n, item);
    PadStill(OneGroup(key, i, p), q, OneGroup(key', i, q), f);
    StandsNext(A, ops, out, Finder(OneGroup(key, i, p), [f]), Padding(q), Finder(OneGroup(key', i, q), [f]), [], out);
  }

  /** The last number of padding hands off the frame that waits for it. */
  lemma FillDelivers(A: Runs, ops: seq<Op>, out: seq<Frame>, i: int, n: nat, item: Item, p: int, key: int,
                     q: int, key': int, f: Frame, e: int, key'': int, g: Frame)
    requires Tracks(A) && Filled(A, ops, out, i, p, key, [f]) && GoodItem(item, n) && n > 0 && f == FrameOf(i, n, item)
    requires q == p + 1 == i + item.fill && key' == KeyFor(key, q)
    requires e == EndOf(i, item) && key'' == KeyFor(key', e) && g == HandedOff(i, n, item)
    ensures Filled(A, ops + [Padding(q)], out + [g], e, e, key'', [])
  {
    PadMoves(key, i, p, q, key');
    DeltaManaged(key', i, q, n, item, e, key'');
    PadFrees(OneGroup(key, i, p), q, OneGroup(key', i, q), f, OneGroup(key'', e, e), g);
    StandsNext(A, ops, out, Finder(OneGroup(key, i, p), [f]), Padding(q), Finder(OneGroup(key'', e, e), []), [g],
               out + [g]);
  }

  /** The frame arrives when the padding in front of it is there. */
  lemma FrameDelivers(A: Runs, ops: seq<Op>, out: seq<Frame>, i: int, n: nat, item: Item, q: int, key: int, f: Frame,
                      e: int, key': int, g: Frame)
    requires Tracks(A) && Filled(A, ops, out, i, q, key, []) && GoodItem(item, n) && n > 0 && f == FrameOf(i, n, item)
    requires q == i + item.fill && e == EndOf(i, item) && key' == KeyFor(key, e) && g == HandedOff(i, n, item)
    ensures Filled(A, ops + [Manage(f)], out + [g], e, e, key', [])
  {
    DeltaManaged(key, i, q, n, item, e, key');
    FrameTaken(OneGroup(key, i, q), f, OneGroup(key', e, e), g);
    StandsNext(A, ops, out, Finder(OneGroup(key, i, q), []), Manage(f), Finder(OneGroup(key', e, e), []), [g],
               out + [g]);
  }

  /** The frame arrives before the padding in front of it. */
  lemma FrameWaits(A: Runs, ops: seq<Op>, out: seq<Frame>, i: int, n: nat, item: Item, key: int, f: Frame)
    requires Tracks(A) && Filled(A, ops, out, i, i, key, [])
    requires GoodItem(item, n) && n > 0 && item.fill > 0 && f == FrameOf(i, n, item)
    ensures Filled(A, ops + [Manage(f)], out, i, i, key, [f])
  {
    var s := OneGroup(key, i, i);
    DeltaWaits(key, i, i, n, item);
    FrameStashed(s, f);
    StandsNext(A, ops, out, Finder(s, []), Manage(f), Finder(s, [f]), [], out);
  }

  lemma PadsNext(ops: seq<Op>, i: int, k: nat, q: int)
    requires k > 0 && q == i + k
    ensures ops + Pads(i, k) == ops + Pads(i, k - 1) + [Padding(q)]
  {
  }

  lemma {:induction false} FillAll(A: Runs, ops: seq<Op>, out: seq<Frame>, i: int, k: nat, key: int) returns (key': int)
    requires Tracks(A) && Filled(A, ops, out, i, i, key, [])
    ensures Filled(A, ops + Pads(i, k), out, i, i + k, key', [])
    decreases k
  {
    if k == 0 {
      assert ops + [] == ops;
      key' := key;
    } else {
      var before := FillAll(A, ops, out, i, k - 1, key);
      key' := KeyFor(before, i + k);
      FillNext(A, ops + Pads(i, k - 1), out, i, i + (k - 1), before, i + k, key');
      PadsNext(ops, i, k, i + k);
    }
  }

  lemma {:induction false} FillBehind(A: Runs, ops: seq<Op>, out: seq<Frame>, i: int, n: nat, item: Item, k: nat,
                                      key: int, f: Frame)
    returns (key': int)
    requires Tracks(A) && GoodItem(item, n) && n > 0 && k < item.fill && f == FrameOf(i, n, item)
    requires Filled(A, ops, out, i, i, key, [f])
    ensures Filled(A, ops + Pads(i, k), out, i, i + k, key', [f])
    decreases k
  {
    if k == 0 {
      assert ops + [] == ops;
      key' := key;
    } else {
      var before := FillBehind(A, ops, out, i, n, item, k - 1, key, f);
      key' := KeyFor(before, i + k);
      FillWaiting(A, ops + Pads(i, k - 1), out, i, n, item, i + (k - 1), before, i + k, key', f);
      PadsNext(ops, i, k, i + k);
    }
  }

  /** One item more, with its frame first, */
  lemma EarlyNext(A: Runs, ops: seq<Op>, out: seq<Frame>, i: int, n: nat, item: Item, key: int, f: Frame, e: int,
                  g: Frame)
    returns (key': int)
    requires Tracks(A) && Filled(A, ops, out, i, i, key, []) && GoodItem(item, n) && n > 0 && item.fill > 0
    requires f == FrameOf(i, n, item) && e == EndOf(i, item) && g == HandedOff(i, n, item)
    ensures Filled(A, ops + [Manage(f)] + Pads(i, item.fill), out + [g], e, e, key', [])
  {
    var q := i + item.fill;
    FrameWaits(A, ops, out, i, n, item, key, f);
    var before := FillBehind(A, ops + [Manage(f)], out, i, n, item, item.fill - 1, key, f);
    var padded := KeyFor(before, q);
    key' := KeyFor(padded, e);
    FillDelivers(A, ops + [Manage(f)] + Pads(i, item.fill - 1), out, i, n, item, i + (item.fill - 1), before, q, padded,
                 f, e, key', g);
    PadsNext(ops + [Manage(f)], i, item.fill, q);
  }

  /** or with its padding first. */
  lemma OrderlyNext(A: Runs, ops: seq<Op>, out: seq<Frame>, i: int, n: nat, item: Item, key: int, f: Frame, e: int,
                    g: Frame)
    returns (key': int)
    requires Tracks(A) && Filled(A, ops, out, i, i, key, []) && GoodItem(item, n) && n > 0
    requires f == FrameOf(i, n, item) && e == EndOf(i, item) && g == HandedOff(i, n, item)
    ensures Filled(A, ops + Pads(i, item.fill) + [Manage(f)], out + [g], e, e, key', [])
  {
    var before := FillAll(A, ops, out, i, item.fill, key);
    key' := KeyFor(before, e);
    FrameDelivers(A, ops + Pads(i, item.fill), out, i, n, item, i + item.fill, before, f, e, key', g);
  }

  lemma OpsAfter(ops: seq<Op>, i: int, n: nat, item: Item, f: Frame)
    requires f == FrameOf(i, n, item)
    ensures item.early ==> ops + OpsOf(i, n, item) == ops + [Manage(f)] + Pads(i, item.fill)
    ensures !item.early || item.fill == 0 ==> ops + OpsOf(i, n, item) == ops + Pads(i, item.fill) + [Manage(f)]
  {
  }

  /** One item more. */
  lemma ItemNext(A: Runs, ops: seq<Op>, out: seq<Frame>, i: int, n: nat, item: Item, key: int) returns (key': int)
    requires Tracks(A) && Filled(A, ops, out, i, i, key, []) && GoodItem(item, n) && n > 0
    ensures Filled(A, ops + OpsOf(i, n, item), out + [HandedOff(i, n, item)], EndOf(i, item), EndOf(i, item), key', [])
  {
    var f, e, g := FrameOf(i, n, item), EndOf(i, item), HandedOff(i, n, item);
    OpsAfter(ops, i, n, item, f);
    if item.early && item.fill > 0 {
      key' := EarlyNext(A, ops, out, i, n, item, key, f, e, g);
    } else {
      key' := OrderlyNext(A, ops, out, i, n, item, key, f, e, g);
    }
  }

  lemma FirstItem(A: Runs, item: Item, e: int)
    requires Tracks(A) && GoodItem(item, 0) && e == EndOf(-1, item)
    ensures Filled(A, OpsOf(-1, 0, item), [HandedOff(-1, 0, item)], e, e, e, [])
  {
    var f := FrameOf(-1, 0, item);
    FirstManaged(item, e);
    FrameTaken(EMPTY.state, f, OneGroup(e, e, e), HandedOff(-1, 0, item));
    StandsNext(A, [], [], EMPTY, Manage(f), Finder(OneGroup(e, e, e), []), [HandedOff(-1, 0, item)],
               [HandedOff(-1, 0, item)]);
    assert OpsOf(-1, 0, item) == [] + [Manage(f)];
  }

  lemma {:induction false} StreamRuns(A: Runs, items: seq<Item>) returns (key: int)
    requires Tracks(A) && GoodItems(items) && items != []
    ensures Filled(A, Ops(items), AllHandedOff(items), LastOf(items), LastOf(items), key, [])
    decreases |items|
  {
    var l := |items| - 1;
    var before := items[..l];
    assert GoodItem(items[l], l);
    if l == 0 {
      key := EndOf(-1, items[0]);
      FirstItem(A, items[0], key);
      assert before == [];
      assert Ops(items) == OpsOf(-1, 0, items[0]);
      assert AllHandedOff(items) == [HandedOff(-1, 0, items[0])];
    } else {
      forall k | 0 <= k < l ensures GoodItem(before[k], k) { assert GoodItem(items[k], k); }
      key := StreamRuns(A, before);
      key := ItemNext(A, Ops(before), AllHandedOff(before), LastOf(before), l, items[l], key);
    }
  }

  /** All frames of the stream are handed off, in order, each with the id of its last number and a reference to the
      one before: a frame whose numbers back to the frame before have all been reported as padding does not wait any
      longer, whether it or the padding came first. */
  lemma PaddingDelivers(items: seq<Item>)
    requires GoodItems(items)
    ensures After(Ops(items)).out == AllHandedOff(items) && After(Ops(items)).finder.stash == []
    ensures After(Ops(items)).lost == []
  {
    if items != [] {
      AfterTracks();
      var key := StreamRuns(After, items);
    }
  }
}
