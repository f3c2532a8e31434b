/** The decision state of the sequence-number reference finder as a value: one step of it, and the
    invariant that makes references sound. */
module SeqNumState {
  import opened SeqNums
  import opened Unwrapping
  import opened GopMap

  const M: nat := 65536
  const REKEY_DISTANCE: nat := 10000

  /** An unwrapper of 16-bit numbers. */
  type SeqUnwrapper = u: Unwrapper | u.last.Some? ==> u.last.value < M witness FRESH

  datatype State = State(gop: seq<Gop>, padding: set<SeqNum>, unwrapper: SeqUnwrapper)


  /** How far continuous padding reaches after p, */
  function PadEnd(padding: set<SeqNum>, p: SeqNum): SeqNum
    decreases padding
  {
    if Next(p) in padding then PadEnd(padding - {Next(p)}, Next(p)) else p
  }

  /** and the padding that remains once it has been used up. */
  function PadRest(padding: set<SeqNum>, p: SeqNum): set<SeqNum>
    decreases padding
  {
    if Next(p) in padding then PadRest(padding - {Next(p)}, Next(p)) else padding
  }

  /** The groups after padding has been joined to the group of seqNum. A group whose key frame has
      fallen far behind is re-keyed, so that it does not seem newer than its frames after a wrap. */
  function Padded(g: seq<Gop>, padding: set<SeqNum>, seqNum: SeqNum): seq<Gop> {
    var i := UpperBound(g, seqNum);
    if i == 0 then g
    else
      var e := g[i - 1].(pad := PadEnd(padding, g[i - 1].pad));
      if ForwardDiff(e.key, seqNum) > REKEY_DISTANCE then [e.(key := seqNum)] else g[i - 1 := e]
  }

  function PaddingLeft(g: seq<Gop>, padding: set<SeqNum>, seqNum: SeqNum): set<SeqNum> {
    var i := UpperBound(g, seqNum);
    if i == 0 then padding else PadRest(padding, g[i - 1].pad)
  }

  /** The group found for a frame takes the frame as its last one, if it is newer. */
  function Extended(g: seq<Gop>, i: nat, last: SeqNum): seq<Gop>
    requires i < |g|
  {
    if AheadOf(last, g[i].pic) then g[i := Gop(g[i].key, last, last)] else g
  }

  /** The frame joined to group i of the state: the new state, and the frame with its id and reference. */
  function Joined(s: State, i: nat, f: Frame): (State, Frame)
    requires i < |s.gop|
  {
    var u1 := s.unwrapper.Moved(M, s.gop[i].pic);
    var u2 := u1.Moved(M, f.last);
    var g3 := Extended(s.gop, i, f.last);
    (State(Padded(g3, s.padding, f.last), PaddingLeft(g3, s.padding, f.last), u2),
     f.(id := u2.unwrapped, refs := if f.kind.DeltaFrame? then [u1.unwrapped] else []))
  }

  /** One frame managed: the new state, the decision, and the frame with its id and references. */
  function Managed(s: State, f: Frame): (State, Decision, Frame)
  {
    var d := Decide(s.gop, f);
    var g1 := Started(s.gop, f);
    if g1 == [] then (s, d, f)
    else
      var s2 := s.(gop := Cleaned(g1, f.last));
      if d != HandOff then (s2, d, f)
      else
        var (s', f') := Joined(s2, UpperBound(s2.gop, f.last) - 1, f);
        (s', d, f')
  }

  // ---- Unbounded numbers ------------------------------------------------------

  /** The low 16 bits of a number. */
  function Low(n: int): SeqNum { n % 65536 }

  /** The number from start on that has x as its low 16 bits. */
  function Full(start: int, x: SeqNum): int { start + ForwardDiff(Low(start), x) }

  lemma FullLow(start: int, n: int)
    requires start <= n < start + 65536
    ensures ForwardDiff(Low(start), Low(n)) == n - start && Full(start, Low(n)) == n
  {
  }

  /** The number of a frame's first packet. */
  function FirstAt(f: Frame): int { f.at - ForwardDiff(f.first, f.last) }

  // ---- The invariant ----------------------------------------------------------

  /** All numbers after a up to b were reported as padding. */
  ghost predicate PaddingBetween(reported: set<int>, a: int, b: int) { forall n :: a < n <= b ==> n in reported }

  /** A frame ending at pic was handed off under the id that pic unwraps to now. */
  ghost predicate Delivered(start: int, history: seq<Frame>, u: SeqUnwrapper, pic: SeqNum)
  {
    exists i :: 0 <= i < |history| && history[i].last == pic && history[i].id == u.Peek(M, pic) &&
                history[i].at == Full(start, pic)
  }

  /** The only reference of a delta frame f is a frame r that was handed off earlier, by as much smaller in its
      id as it lies back in the stream, and every number between r's last and f's first packet was reported as
      padding. */
  ghost predicate Refers(f: Frame, r: Frame, reported: set<int>) {
    && f.refs == [r.id] && r.id < f.id && r.at < FirstAt(f) && f.id - r.id == f.at - r.at
    && PaddingBetween(reported, r.at, FirstAt(f) - 1)
  }

  ghost predicate SoundHandOff(earlier: seq<Frame>, f: Frame, reported: set<int>) {
    if f.kind.DeltaFrame? then exists i :: 0 <= i < |earlier| && Refers(f, earlier[i], reported) else f.refs == []
  }

  ghost predicate SoundHistory(history: seq<Frame>, reported: set<int>) {
    forall j :: 0 <= j < |history| ==> SoundHandOff(history[..j], history[j], reported)
  }

  ghost predicate GopDelivered(start: int, e: Gop, u: SeqUnwrapper, history: seq<Frame>, reported: set<int>)
  {
    Delivered(start, history, u, e.pic) && PaddingBetween(reported, Full(start, e.pic), Full(start, e.pad))
  }

  ghost predicate AllDelivered(start: int, s: State, history: seq<Frame>, reported: set<int>)
  {
    forall e :: e in s.gop ==> GopDelivered(start, e, s.unwrapper, history, reported)
  }

  ghost predicate PaddingOk(start: int, padding: set<SeqNum>, reported: set<int>) {
    forall p :: p in padding ==> In(Low(start), p) && Full(start, p) in reported
  }

  /** The state, its numbers seen from the start of a window that holds them all. */
  ghost predicate Core(start: int, s: State, history: seq<Frame>, reported: set<int>) {
    && (s.unwrapper.last.Some? ==> In(Low(start), s.unwrapper.last.value))
    && (s.gop != [] ==> s.unwrapper.last.Some?)
    && Ordered(Low(start), s.gop) && PaddingOk(start, s.padding, reported)
    && AllDelivered(start, s, history, reported)
    && SoundHistory(history, reported)
  }

  /** The frame lies in the window, also by its unbounded number. */
  ghost predicate FrameAt(start: int, f: Frame) { FrameIn(Low(start), f) && f.at == Full(start, f.last) }

  // ---- Lemmas -----------------------------------------------------------------

  /** The numbers after p up to and including e. */
  ghost function Stepped(p: SeqNum, e: SeqNum): set<SeqNum> {
    set s: SeqNum | 0 <= s < 65536 && 0 < ForwardDiff(p, s) <= ForwardDiff(p, e)
  }

  ghost predicate EveryNumber(padding: set<SeqNum>) { forall s: SeqNum :: s in padding }

  /** Going on from p over padding ends at e: the numbers up to it are padding and the next one is not, and exactly
      these have been used up. Only if every number is padding does it come back to where it started. */
  ghost predicate RunsTo(padding: set<SeqNum>, p: SeqNum, e: SeqNum, rest: set<SeqNum>) {
    if EveryNumber(padding) then e == p && rest == {}
    else Next(e) !in padding && Stepped(p, e) <= padding && rest == padding - Stepped(p, e)
  }

  lemma SteppedNext(p: SeqNum, e: SeqNum)
    ensures e != p ==> Stepped(p, e) == Stepped(Next(p), e) + {Next(p)}
    ensures e == p ==> Stepped(p, e) == {} && forall s: SeqNum :: s in Stepped(Next(p), e) || s == Next(p)
  {
    forall s: SeqNum ensures e != p ==> (s in Stepped(p, e) <==> s in Stepped(Next(p), e) + {Next(p)}) { }
  }

  /** Padding is followed as far as it goes, and nothing else is used up. */
  lemma {:induction false} PadRuns(padding: set<SeqNum>, p: SeqNum)
    ensures RunsTo(padding, p, PadEnd(padding, p), PadRest(padding, p))
    decreases padding
  {
    var e := PadEnd(padding, p);
    if Next(p) in padding {
      var less := padding - {Next(p)};
      PadRuns(less, Next(p));
      assert Next(p) !in less;
      SteppedNext(p, e);
    } else {
      assert Stepped(p, p) == {};
    }
  }

  /** The group found for seqNum has moved its end over all padding that follows, which is used up, and has been
      re-keyed if its key frame was far behind; the other groups are as they were, unless it was. */
  ghost predicate PaddingFollowed(g: seq<Gop>, padding: set<SeqNum>, seqNum: SeqNum, g': seq<Gop>, rest: set<SeqNum>) {
    var i := UpperBound(g, seqNum);
    if i == 0 then g' == g && rest == padding
    else
      var e := g[i - 1];
      exists end: SeqNum ::
        && RunsTo(padding, e.pad, end, rest)
        && g' == if ForwardDiff(e.key, seqNum) > REKEY_DISTANCE then [Gop(seqNum, e.pic, end)]
                 else g[i - 1 := Gop(e.key, e.pic, end)]
  }

  lemma FollowsPadding(g: seq<Gop>, padding: set<SeqNum>, seqNum: SeqNum)
    ensures PaddingFollowed(g, padding, seqNum, Padded(g, padding, seqNum), PaddingLeft(g, padding, seqNum))
  {
    var i := UpperBound(g, seqNum);
    if i > 0 { PadRuns(padding, g[i - 1].pad); }
  }

  /** Continuous padding stays inside the window and consists of padding only. */
  lemma {:induction false} PadReach(base: SeqNum, padding: set<SeqNum>, p: SeqNum)
    requires In(base, p) && forall q :: q in padding ==> In(base, q)
    ensures var e := PadEnd(padding, p);
            && In(base, e) && ForwardDiff(base, p) <= ForwardDiff(base, e)
            && (forall s: SeqNum :: ForwardDiff(base, p) < ForwardDiff(base, s) <= ForwardDiff(base, e) ==>
                s in padding)
            && PadRest(padding, p) <= padding && Next(e) !in PadRest(padding, p)
    decreases padding
  {
    if Next(p) in padding {
      PadReach(base, padding - {Next(p)}, Next(p));
      forall s: SeqNum | ForwardDiff(base, p) < ForwardDiff(base, s) <= ForwardDiff(base, PadEnd(padding, p))
        ensures s in padding
      {
        assert s == Next(p) || ForwardDiff(base, Next(p)) < ForwardDiff(base, s);
      }
    }
  }

  /** Moving the unwrapper inside the window does not change what other numbers unwrap to. */
  lemma PeekStable(base: SeqNum, u: SeqUnwrapper, x: SeqNum, y: SeqNum)
    requires u.last.Some? && In(base, u.last.value) && In(base, x) && In(base, y)
    ensures u.Moved(M, x).Peek(M, y) == u.Peek(M, y)
    ensures u.Peek(M, y) - u.Peek(M, x) == ForwardDiff(base, y) - ForwardDiff(base, x)
  {
  }

  /** Joining padding to a group keeps its records true. */
  lemma JoinedPadding(start: int, e: Gop, padding: set<SeqNum>, reported: set<int>)
    requires GopIn(Low(start), e) && PaddingOk(start, padding, reported)
    requires PaddingBetween(reported, Full(start, e.pic), Full(start, e.pad))
    ensures var e' := e.(pad := PadEnd(padding, e.pad));
            GopIn(Low(start), e') && PaddingBetween(reported, Full(start, e'.pic), Full(start, e'.pad))
  {
    PadReach(Low(start), padding, e.pad);
    var e' := e.(pad := PadEnd(padding, e.pad));
    forall n | Full(start, e.pic) < n <= Full(start, e'.pad) ensures n in reported {
      if n > Full(start, e.pad) {
        FullLow(start, n);
        assert Low(n) in padding;
      }
    }
  }

  lemma ReplaceOrdered(base: SeqNum, g: seq<Gop>, i: nat, e: Gop)
    requires Ordered(base, g) && i < |g| && GopIn(base, e) && e.key == g[i].key
    ensures Ordered(base, g[i := e])
  {
  }

  /** Replacing the groups by sound ones, and dropping padding, keeps the invariant. */
  lemma RegroupedCore(start: int, s: State, g: seq<Gop>, padding: set<SeqNum>,
                      history: seq<Frame>, reported: set<int>)
    requires Core(start, s, history, reported) && s.gop != [] && Ordered(Low(start), g) && padding <= s.padding
    requires forall x :: x in g ==> GopDelivered(start, x, s.unwrapper, history, reported)
    ensures Core(start, State(g, padding, s.unwrapper), history, reported)
  {
  }

  lemma PaddedCore(start: int, s: State, history: seq<Frame>, reported: set<int>, seqNum: SeqNum)
    requires Core(start, s, history, reported) && In(Low(start), seqNum)
    ensures Core(start, State(Padded(s.gop, s.padding, seqNum), PaddingLeft(s.gop, s.padding, seqNum), s.unwrapper),
                 history, reported)
  {
    var i := UpperBound(s.gop, seqNum);
    if i > 0 {
      var e := s.gop[i - 1];
      var e' := e.(pad := PadEnd(s.padding, e.pad));
      PaddedGroup(start, s, history, reported, i - 1, e');
      if ForwardDiff(e.key, seqNum) > REKEY_DISTANCE {
        RekeyedCore(start, s, e', PadRest(s.padding, e.pad), history, reported, seqNum);
      } else {
        ReplacedCore(start, s, i - 1, e', PadRest(s.padding, e.pad), history, reported);
      }
    }
  }

  lemma PaddedGroup(start: int, s: State, history: seq<Frame>, reported: set<int>, i: nat, e': Gop)
    requires Core(start, s, history, reported) && i < |s.gop|
    requires e' == s.gop[i].(pad := PadEnd(s.padding, s.gop[i].pad))
    ensures GopIn(Low(start), e') && GopDelivered(start, e', s.unwrapper, history, reported)
    ensures PadRest(s.padding, s.gop[i].pad) <= s.padding
  {
    var e := s.gop[i];
    assert e in s.gop && GopIn(Low(start), e);
    JoinedPadding(start, e, s.padding, reported);
    PadReach(Low(start), s.padding, e.pad);
  }

  lemma RekeyedCore(start: int, s: State, e: Gop, padding: set<SeqNum>, history: seq<Frame>, reported: set<int>,
                    key: SeqNum)
    requires Core(start, s, history, reported) && s.gop != [] && padding <= s.padding && In(Low(start), key)
    requires GopIn(Low(start), e) && GopDelivered(start, e, s.unwrapper, history, reported)
    ensures Core(start, State([e.(key := key)], padding, s.unwrapper), history, reported)
  {
    RegroupedCore(start, s, [e.(key := key)], padding, history, reported);
  }

  lemma ReplacedCore(start: int, s: State, i: nat, e: Gop, padding: set<SeqNum>, history: seq<Frame>,
                     reported: set<int>)
    requires Core(start, s, history, reported) && i < |s.gop| && padding <= s.padding && e.key == s.gop[i].key
    requires GopIn(Low(start), e) && GopDelivered(start, e, s.unwrapper, history, reported)
    ensures Core(start, State(s.gop[i := e], padding, s.unwrapper), history, reported)
  {
    ReplaceOrdered(Low(start), s.gop, i, e);
    RegroupedCore(start, s, s.gop[i := e], padding, history, reported);
  }

  lemma HistoryGrows(history: seq<Frame>, f: Frame, reported: set<int>)
    requires SoundHistory(history, reported) && SoundHandOff(history, f, reported)
    ensures SoundHistory(history + [f], reported)
  {
    var h := history + [f];
    forall j | 0 <= j < |h|
      ensures SoundHandOff(h[..j], h[j], reported)
    {
      if j < |history| {
        assert h[..j] == history[..j];
      } else {
        assert h[..j] == history;
      }
    }
  }

  /** A group known before still has its last frame among those delivered, under the same id. */
  lemma StillDelivered(start: int, history: seq<Frame>, f: Frame, u: SeqUnwrapper, x: SeqNum, y: SeqNum, pic: SeqNum)
    requires u.last.Some? && In(Low(start), u.last.value)
    requires In(Low(start), x) && In(Low(start), y) && In(Low(start), pic)
    requires Delivered(start, history, u, pic)
    ensures Delivered(start, history + [f], u.Moved(M, x).Moved(M, y), pic)
  {
    PeekStable(Low(start), u, x, pic);
    PeekStable(Low(start), u.Moved(M, x), y, pic);
    var k :| 0 <= k < |history| && history[k].last == pic && history[k].id == u.Peek(M, pic) &&
             history[k].at == Full(start, pic);
    assert (history + [f])[k] == history[k];
  }

  /** The first packet of a frame in the window, by its unbounded number. */
  lemma FirstInWindow(start: int, f: Frame)
    requires FrameAt(start, f)
    ensures FirstAt(f) - 1 == Full(start, Prev(f.first)) && FirstAt(f) <= f.at
  {
  }

  /** A delta frame that joins on to its group references the group's last frame. */
  lemma DeltaSound(start: int, e: Gop, f: Frame, f': Frame, u: SeqUnwrapper, history: seq<Frame>, reported: set<int>)
    requires u.last.Some? && In(Low(start), u.last.value) && GopIn(Low(start), e) && FrameAt(start, f)
    requires GopDelivered(start, e, u, history, reported) && e.pad == Prev(f.first) && f.kind.DeltaFrame?
    requires f' == f.(id := u.Moved(M, e.pic).Moved(M, f.last).unwrapped, refs := [u.Moved(M, e.pic).unwrapped])
    ensures SoundHandOff(history, f', reported)
  {
    PeekStable(Low(start), u, e.pic, f.last);
    FirstInWindow(start, f);
    var k :| 0 <= k < |history| && history[k].last == e.pic && history[k].id == u.Peek(M, e.pic) &&
             history[k].at == Full(start, e.pic);
    assert Refers(f', history[k], reported);
  }

  /** Every step keeps the invariant: in particular every frame handed off is sound. */
  lemma ManagedCore(start: int, s: State, f: Frame, history: seq<Frame>, reported: set<int>)
    requires Core(start, s, history, reported) && FrameAt(start, f)
    ensures var (s', d, f') := Managed(s, f);
            Core(start, s', if d == HandOff then history + [f'] else history, reported)
  {
    var base := Low(start);
    if f.kind.KeyFrame? {
      KeyFrameDelivered(base, s.gop, f);
      InsertOrdered(base, s.gop, f.last);
      InsertedMembers(s.gop, f.last);
    }
    var g1 := Started(s.gop, f);
    if g1 != [] {
      var g2 := Cleaned(g1, f.last);
      SuffixOrdered(base, g1, Stale(g1, Minus(f.last, 100)));
      assert forall e :: e in g2 ==> e in g1;
      if Decide(s.gop, f) == HandOff { HandOffCore(start, s, f, g2, history, reported); }
    }
  }

  lemma HandOffCore(start: int, s: State, f: Frame, g2: seq<Gop>, history: seq<Frame>, reported: set<int>)
    requires Core(start, s, history, reported) && FrameAt(start, f) && Decide(s.gop, f) == HandOff
    requires g2 == Cleaned(Started(s.gop, f), f.last) && Ordered(Low(start), g2)
    requires forall e :: e in g2 ==> e in s.gop || (f.kind.KeyFrame? && e == Gop(f.last, f.last, f.last))
    ensures var (s', d, f') := Managed(s, f); Core(start, s', history + [f'], reported)
  {
    var i := HandOffJoins(s, f, g2);
    JoinedCore(start, s, f, g2, i, history, reported);
  }

  /** A frame that is handed off joins the group found for it. */
  lemma HandOffJoins(s: State, f: Frame, g2: seq<Gop>) returns (i: nat)
    requires Decide(s.gop, f) == HandOff && g2 == Cleaned(Started(s.gop, f), f.last)
    ensures i < |g2| && (f.kind.DeltaFrame? ==> g2[i].pad == Prev(f.first))
    ensures var (s', f') := Joined(s.(gop := g2), i, f); Managed(s, f) == (s', HandOff, f')
  {
    i := UpperBound(g2, f.last) - 1;
  }

  /** Joining a frame to group i keeps the invariant, if a delta frame directly follows what the group has. */
  lemma JoinedCore(start: int, s: State, f: Frame, g2: seq<Gop>, i: nat, history: seq<Frame>, reported: set<int>)
    requires Core(start, s, history, reported) && FrameAt(start, f) && Ordered(Low(start), g2) && i < |g2|
    requires forall e :: e in g2 ==> e in s.gop || (f.kind.KeyFrame? && e == Gop(f.last, f.last, f.last))
    requires f.kind.DeltaFrame? ==> g2[i].pad == Prev(f.first)
    ensures var (s', f') := Joined(s.(gop := g2), i, f); Core(start, s', history + [f'], reported)
  {
    var (s', f') := Joined(s.(gop := g2), i, f);
    var e, u := g2[i], s.unwrapper;
    assert e in g2;
    ExtendedDelivered(start, s, f, f', g2, i, history, reported);
    ReplaceOrdered(Low(start), g2, i, Gop(e.key, f.last, f.last));
    assert SoundHandOff(history, f', reported) by {
      if f.kind.DeltaFrame? { DeltaSound(start, e, f, f', u, history, reported); }
    }
    HistoryGrows(history, f', reported);
    var g3 := Extended(g2, i, f.last);
    PaddedCore(start, State(g3, s.padding, u.Moved(M, e.pic).Moved(M, f.last)), history + [f'], reported, f.last);
  }

  lemma ExtendedDelivered(start: int, s: State, f: Frame, f': Frame, g2: seq<Gop>, i: nat,
                          history: seq<Frame>, reported: set<int>)
    requires Core(start, s, history, reported) && FrameAt(start, f) && Ordered(Low(start), g2) && i < |g2|
    requires forall e :: e in g2 ==> e in s.gop || (f.kind.KeyFrame? && e == Gop(f.last, f.last, f.last))
    requires f'.last == f.last && f'.at == f.at && f'.id == s.unwrapper.Moved(M, g2[i].pic).Moved(M, f.last).unwrapped
    ensures AllDelivered(start,
                         State(Extended(g2, i, f.last), s.padding, s.unwrapper.Moved(M, g2[i].pic).Moved(M, f.last)),
                         history + [f'], reported)
  {
    var u2 := s.unwrapper.Moved(M, g2[i].pic).Moved(M, f.last);
    var more := history + [f'];
    forall x | x in Extended(g2, i, f.last)
      ensures GopDelivered(start, x, u2, more, reported)
    {
      if x.pic == f.last && x.pad == f.last {
        assert more[|history|].last == x.pic && more[|history|].id == u2.Peek(M, x.pic) &&
               more[|history|].at == Full(start, x.pic);
      } else {
        assert x in g2 && x in s.gop;
        assert g2[i] in g2;
        StillDelivered(start, history, f', s.unwrapper, g2[i].pic, f.last, x.pic);
      }
    }
  }
}
