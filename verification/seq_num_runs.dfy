/** Whole runs of the sequence-number reference finder: every frame given in is accounted for, and key frames
    are handed off. */
module SeqNumRuns {
  import opened SeqNums
  import opened GopMap
  import opened SeqNumState
  import opened SeqNumMachine

  // ---- Tags -----------------------------------------------------------------------------

  ghost function TagsOf(fs: seq<Frame>): set<nat> { set i | 0 <= i < |fs| :: fs[i].tag }

  ghost predicate Distinct(fs: seq<Frame>) { forall i, j :: 0 <= i < j < |fs| ==> fs[i].tag != fs[j].tag }

  lemma TagsOfSum(a: seq<Frame>, b: seq<Frame>)
    ensures TagsOf(a + b) == TagsOf(a) + TagsOf(b)
  {
    forall t | t in TagsOf(a) + TagsOf(b) ensures t in TagsOf(a + b) {
      if t in TagsOf(a) {
        var i :| 0 <= i < |a| && a[i].tag == t;
        assert (a + b)[i].tag == t;
      } else {
        var i :| 0 <= i < |b| && b[i].tag == t;
        assert (a + b)[|a| + i].tag == t;
      }
    }
  }

  lemma DistinctSum(a: seq<Frame>, b: seq<Frame>)
    ensures Distinct(a + b) <==> Distinct(a) && Distinct(b) && TagsOf(a) !! TagsOf(b)
  {
    var c := a + b;
    if Distinct(c) {
      forall i, j | 0 <= i < |a| && 0 <= j < |b| ensures a[i].tag != b[j].tag {
        assert c[i] == a[i] && c[|a| + j] == b[j];
      }
      forall i, j | 0 <= i < j < |a| ensures a[i].tag != a[j].tag { assert c[i] == a[i] && c[j] == a[j]; }
      forall i, j | 0 <= i < j < |b| ensures b[i].tag != b[j].tag { assert c[|a| + i] == b[i] && c[|a| + j] == b[j]; }
    }
    if Distinct(a) && Distinct(b) && TagsOf(a) !! TagsOf(b) {
      forall i, j | 0 <= i < j < |c| ensures c[i].tag != c[j].tag {
        if i < |a| && j >= |a| { assert a[i].tag in TagsOf(a) && b[j - |a|].tag in TagsOf(b); }
      }
    }
  }

  lemma OneTag(f: Frame)
    ensures Distinct([f]) && TagsOf([f]) == {f.tag}
  {
    assert [f][0].tag in TagsOf([f]);
  }

  /** One more frame somewhere in a sequence. */
  lemma InsertTag(a: seq<Frame>, f: Frame, b: seq<Frame>)
    ensures TagsOf(a + [f] + b) == TagsOf(a + b) + {f.tag}
    ensures Distinct(a + [f] + b) <==> Distinct(a + b) && f.tag !in TagsOf(a + b)
  {
    OneTag(f);
    TagsOfSum(a, [f]);
    TagsOfSum(a + [f], b);
    TagsOfSum(a, b);
    DistinctSum(a, [f]);
    DistinctSum(a + [f], b);
    DistinctSum(a, b);
  }

  // ---- Where frames go ------------------------------------------------------------------

  function LostFrames(lost: seq<Loss>): seq<Frame> {
    if lost == [] then [] else [lost[0].frame] + LostFrames(lost[1..])
  }

  lemma {:induction false} LostSum(a: seq<Loss>, b: seq<Loss>)
    ensures LostFrames(a + b) == LostFrames(a) + LostFrames(b)
  {
    if a == [] {
      assert a + b == b;
    } else {
      LostSum(a[1..], b);
      assert (a + b)[1..] == a[1..] + b;
    }
  }

  /** The frames that are waiting, were handed off and were lost. */
  function All(r: Outcome): seq<Frame> { r.finder.stash + r.out + LostFrames(r.lost) }

  /** The frames `whole` are split into those three. */
  ghost predicate Splits(whole: seq<Frame>, r: Outcome) { Distinct(All(r)) && TagsOf(All(r)) == TagsOf(whole) }

  lemma WithoutTag(stash: seq<Frame>, i: nat)
    requires i < |stash| && Distinct(stash)
    ensures Distinct(Without(stash, i)) && stash[i].tag !in TagsOf(Without(stash, i))
    ensures TagsOf(stash) == TagsOf(Without(stash, i)) + {stash[i].tag}
  {
    assert stash == stash[..i] + [stash[i]] + stash[i + 1..];
    InsertTag(stash[..i], stash[i], stash[i + 1..]);
  }

  lemma HandedOne(rest: seq<Frame>, whole: seq<Frame>, f: Frame, r: Outcome)
    requires Splits(rest, r) && f.tag !in TagsOf(rest) && TagsOf(whole) == TagsOf(rest) + {f.tag}
    ensures Splits(whole, r.(out := [f] + r.out))
  {
    var a, b := r.finder.stash, r.out + LostFrames(r.lost);
    InsertTag(a, f, b);
    assert All(r) == a + b && All(r.(out := [f] + r.out)) == a + [f] + b;
  }

  lemma LostOne(rest: seq<Frame>, whole: seq<Frame>, l: Loss, r: Outcome)
    requires Splits(rest, r) && l.frame.tag !in TagsOf(rest) && TagsOf(whole) == TagsOf(rest) + {l.frame.tag}
    ensures Splits(whole, r.(lost := [l] + r.lost))
  {
    var a, b := r.finder.stash + r.out, LostFrames(r.lost);
    InsertTag(a, l.frame, b);
    assert ([l] + r.lost)[1..] == r.lost;
    assert All(r) == a + b && All(r.(lost := [l] + r.lost)) == a + [l.frame] + b;
  }

  lemma {:induction false} PassSplits(s: State, stash: seq<Frame>, i: nat)
    requires i <= |stash| && Distinct(stash)
    ensures Splits(stash, Pass(s, stash, i))
    decreases |stash| - i
  {
    if i == |stash| {
      assert All(Pass(s, stash, i)) == stash;
    } else {
      var (s', d, f) := Managed(s, stash[i]);
      var rest := Without(stash, i);
      WithoutTag(stash, i);
      match d {
        case Stash => PassSplits(s', stash, i + 1);
        case HandOff =>
          PassSplits(s', rest, i);
          HandedOne(rest, stash, f, Pass(s', rest, i));
        case Drop =>
          PassSplits(s', rest, i);
          LostOne(rest, stash, Loss(stash[i], NoGroup), Pass(s', rest, i));
      }
    }
  }

  /** What happens afterwards splits what was waiting. */
  lemma ThenSplits(whole: seq<Frame>, r: Outcome, t: Outcome)
    requires Splits(whole, r) && Splits(r.finder.stash, t)
    ensures Splits(whole, Then(r, t))
  {
    LostSum(r.lost, t.lost);
    RegroupTags(r.finder.stash, r.out, LostFrames(r.lost), t.finder.stash, t.out, LostFrames(t.lost));
  }

  lemma RegroupTags(w: seq<Frame>, o: seq<Frame>, l: seq<Frame>, w': seq<Frame>, o': seq<Frame>, l': seq<Frame>)
    requires Distinct(w + o + l) && Distinct(w' + o' + l') && TagsOf(w' + o' + l') == TagsOf(w)
    ensures Distinct(w' + (o + o') + (l + l')) && TagsOf(w' + (o + o') + (l + l')) == TagsOf(w + o + l)
  {
    SplitTags(w, o, l);
    SplitTags(w', o', l');
    SplitTags(w', o + o', l + l');
    TagsOfSum(o, o');
    TagsOfSum(l, l');
    DistinctSum(o, o');
    DistinctSum(l, l');
  }

  lemma SplitTags(a: seq<Frame>, b: seq<Frame>, c: seq<Frame>)
    ensures TagsOf(a + b + c) == TagsOf(a) + TagsOf(b) + TagsOf(c)
    ensures Distinct(a + b + c) <==> && Distinct(a) && Distinct(b) && Distinct(c)
                                     && TagsOf(a) !! TagsOf(b) && TagsOf(a) !! TagsOf(c) && TagsOf(b) !! TagsOf(c)
  {
    TagsOfSum(a, b);
    TagsOfSum(a + b, c);
    DistinctSum(a, b);
    DistinctSum(a + b, c);
  }

  lemma {:induction false} RetriedSplits(s: State, stash: seq<Frame>)
    requires Distinct(stash)
    ensures Splits(stash, Retried(s, stash))
    decreases |stash|
  {
    PassSplits(s, stash, 0);
    var r := Pass(s, stash, 0);
    if r.out != [] {
      SplitTags(r.finder.stash, r.out, LostFrames(r.lost));
      RetriedSplits(r.finder.state, r.finder.stash);
      ThenSplits(stash, r, Retried(r.finder.state, r.finder.stash));
    }
  }

  lemma {:induction false} KeptSplits(stash: seq<Frame>, c: SeqNum, i: nat)
    requires i <= |stash| && Distinct(stash)
    ensures Splits(stash, Kept(stash, c, i))
    decreases |stash| - i
  {
    if i == |stash| {
      assert All(Kept(stash, c, i)) == stash;
    } else if AheadOf(c, stash[i].first) {
      WithoutTag(stash, i);
      KeptSplits(Without(stash, i), c, i);
      LostOne(Without(stash, i), stash, Loss(stash[i], Cleared), Kept(Without(stash, i), c, i));
    } else {
      KeptSplits(stash, c, i + 1);
    }
  }

  lemma ManagingSplits(m: Finder, f: Frame)
    requires Distinct(m.stash + [f])
    ensures Splits(m.stash + [f], Managing(m, f))
  {
    var (s, d, g) := Managed(m.state, f);
    DistinctSum(m.stash, [f]);
    TagsOfSum(m.stash, [f]);
    OneTag(f);
    match d {
      case HandOff =>
        RetriedSplits(s, m.stash);
        HandedOne(m.stash, m.stash + [f], g, Retried(s, m.stash));
        assert Managing(m, f) == Retried(s, m.stash).(out := [g] + Retried(s, m.stash).out) by {
          assert [] + Retried(s, m.stash).lost == Retried(s, m.stash).lost;
        }
      case Drop =>
        var r := Outcome(Finder(s, m.stash), [], []);
        assert All(r) == m.stash;
        LostOne(m.stash, m.stash + [f], Loss(f, NoGroup), r);
        assert Managing(m, f) == r.(lost := [Loss(f, NoGroup)] + r.lost);
      case Stash => StashingSplits(s, m.stash, f);
    }
  }

  lemma OverflowIs(stash: seq<Frame>)
    ensures stash == Trimmed(stash) + LostFrames(Overflow(stash))
  {
    assert Overflow(stash) != [] ==> Overflow(stash)[1..] == [];
  }

  lemma StashingSplits(s: State, stash: seq<Frame>, f: Frame)
    requires Distinct(stash + [f])
    ensures Splits(stash + [f], Outcome(Finder(s, [f] + Trimmed(stash)), [], Overflow(stash)))
  {
    var a, b := Trimmed(stash), LostFrames(Overflow(stash));
    OverflowIs(stash);
    SplitTags(a, b, [f]);
    SplitTags([f], a, b);
    assert [f] + a + [] + b == [f] + a + b;
  }

  ghost function GivenBy(op: Op): seq<Frame> { if op.Manage? then [op.frame] else [] }

  lemma StepSplits(m: Finder, op: Op)
    requires Distinct(m.stash + GivenBy(op))
    ensures Splits(m.stash + GivenBy(op), Step(m, op))
  {
    match op {
      case Manage(f) => ManagingSplits(m, f);
      case Padding(at) =>
        assert m.stash + [] == m.stash;
        RetriedSplits(WithPadding(m.state, Low(at)), m.stash);
      case Clear(c) =>
        assert m.stash + [] == m.stash;
        KeptSplits(m.stash, c, 0);
    }
  }

  /** The frames given in by a run. */
  ghost function Given(ops: seq<Op>): seq<Frame> {
    if ops == [] then [] else Given(ops[..|ops| - 1]) + GivenBy(ops[|ops| - 1])
  }

  /** Over every run that gives no frame in twice, every frame given in is exactly one of handed off once,
      waiting, or lost. */
  lemma {:induction false} RunSplits(ops: seq<Op>)
    requires Distinct(Given(ops))
    ensures Splits(Given(ops), After(ops))
  {
    if ops == [] {
      assert All(After(ops)) == [];
    } else {
      var before, op := ops[..|ops| - 1], ops[|ops| - 1];
      DistinctSum(Given(before), GivenBy(op));
      TagsOfSum(Given(before), GivenBy(op));
      RunSplits(before);
      var r := After(before);
      MoreGiven(Given(before), r, GivenBy(op));
      StepSplits(r.finder, op);
      var wider := r.(finder := r.finder.(stash := r.finder.stash + GivenBy(op)));
      ThenSplits(Given(ops), wider, Step(r.finder, op));
      assert Then(wider, Step(r.finder, op)) == Then(r, Step(r.finder, op));
    }
  }

  lemma MoreGiven(given: seq<Frame>, r: Outcome, fs: seq<Frame>)
    requires Splits(given, r) && Distinct(fs) && TagsOf(fs) !! TagsOf(given)
    ensures Splits(given + fs, r.(finder := r.finder.(stash := r.finder.stash + fs)))
    ensures Distinct(r.finder.stash + fs)
  {
    var w, o, l := r.finder.stash, r.out, LostFrames(r.lost);
    SplitTags(w, o, l);
    TagsOfSum(w, fs);
    DistinctSum(w, fs);
    SplitTags(w + fs, o, l);
    TagsOfSum(given, fs);
  }

  // ---- Frames are handed off as they were given in ---------------------------------------

  /** f is g, but for the id and references it was given. */
  ghost predicate SameFrame(f: Frame, g: Frame) { f == g.(id := f.id, refs := f.refs) }

  ghost predicate Among(f: Frame, whole: seq<Frame>) { exists j :: 0 <= j < |whole| && SameFrame(f, whole[j]) }

  ghost predicate From(fs: seq<Frame>, whole: seq<Frame>) {
    forall i {:trigger Among(fs[i], whole)} :: 0 <= i < |fs| ==> Among(fs[i], whole)
  }

  lemma AmongMore(f: Frame, a: seq<Frame>, b: seq<Frame>)
    requires Among(f, a) && forall j :: 0 <= j < |a| ==> a[j] in b
    ensures Among(f, b)
  {
    var j :| 0 <= j < |a| && SameFrame(f, a[j]);
    assert a[j] in b;
    var k :| 0 <= k < |b| && b[k] == a[j];
    assert SameFrame(f, b[k]);
  }

  lemma FromMore(fs: seq<Frame>, a: seq<Frame>, b: seq<Frame>)
    requires From(fs, a) && forall j :: 0 <= j < |a| ==> a[j] in b
    ensures From(fs, b)
  {
    forall i | 0 <= i < |fs| ensures Among(fs[i], b) {
      assert Among(fs[i], a);
      AmongMore(fs[i], a, b);
    }
  }

  lemma FromSum(a: seq<Frame>, b: seq<Frame>, whole: seq<Frame>)
    ensures From(a + b, whole) <==> From(a, whole) && From(b, whole)
  {
    if From(a + b, whole) {
      forall i | 0 <= i < |a| ensures Among(a[i], whole) { assert Among((a + b)[i], whole); }
      forall i | 0 <= i < |b| ensures Among(b[i], whole) { assert Among((a + b)[|a| + i], whole); }
    }
    if From(a, whole) && From(b, whole) {
      forall i | 0 <= i < |a + b| ensures Among((a + b)[i], whole) {
        if i < |a| { assert Among(a[i], whole); } else { assert Among(b[i - |a|], whole); }
      }
    }
  }

  lemma FromSelf(whole: seq<Frame>)
    ensures From(whole, whole)
  {
    forall i | 0 <= i < |whole| ensures Among(whole[i], whole) { assert SameFrame(whole[i], whole[i]); }
  }

  lemma WithoutIsPart(stash: seq<Frame>, i: nat)
    requires i < |stash|
    ensures forall j :: 0 <= j < |Without(stash, i)| ==> Without(stash, i)[j] in stash
  {
  }

  lemma {:induction false} PassFrom(s: State, stash: seq<Frame>, i: nat)
    requires i <= |stash|
    ensures From(Pass(s, stash, i).out, stash) && From(Pass(s, stash, i).finder.stash, stash)
    decreases |stash| - i
  {
    if i == |stash| {
      FromSelf(stash);
    } else {
      var (s', d, f) := Managed(s, stash[i]);
      var rest := Without(stash, i);
      if d == Stash {
        PassFrom(s', stash, i + 1);
      } else {
        PassFrom(s', rest, i);
        WithoutIsPart(stash, i);
        var r := Pass(s', rest, i);
        FromMore(r.out, rest, stash);
        FromMore(r.finder.stash, rest, stash);
        assert SameFrame(f, stash[i]) && Among(f, stash);
        assert From([f], stash);
        FromSum([f], r.out, stash);
      }
    }
  }

  lemma FromTrans(fs: seq<Frame>, a: seq<Frame>, b: seq<Frame>)
    requires From(fs, a) && From(a, b)
    ensures From(fs, b)
  {
    forall i | 0 <= i < |fs| ensures Among(fs[i], b) {
      assert Among(fs[i], a);
      var j :| 0 <= j < |a| && SameFrame(fs[i], a[j]);
      assert Among(a[j], b);
      var k :| 0 <= k < |b| && SameFrame(a[j], b[k]);
      assert SameFrame(fs[i], b[k]);
    }
  }

  lemma {:induction false} RetriedFrom(s: State, stash: seq<Frame>)
    ensures From(Retried(s, stash).out, stash) && From(Retried(s, stash).finder.stash, stash)
    decreases |stash|
  {
    PassFrom(s, stash, 0);
    var r := Pass(s, stash, 0);
    if r.out != [] {
      RetriedFrom(r.finder.state, r.finder.stash);
      var t := Retried(r.finder.state, r.finder.stash);
      FromTrans(t.out, r.finder.stash, stash);
      FromTrans(t.finder.stash, r.finder.stash, stash);
      FromSum(r.out, t.out, stash);
    }
  }

  lemma {:induction false} KeptFrom(stash: seq<Frame>, c: SeqNum, i: nat)
    requires i <= |stash| && forall j :: 0 <= j < i ==> !AheadOf(c, stash[j].first)
    ensures From(Kept(stash, c, i).finder.stash, stash)
    ensures forall f :: f in Kept(stash, c, i).finder.stash <==> f in stash && !AheadOf(c, f.first)
    decreases |stash| - i
  {
    if i == |stash| {
      FromSelf(stash);
    } else if AheadOf(c, stash[i].first) {
      var rest := Without(stash, i);
      WithoutIsPart(stash, i);
      KeptFrom(rest, c, i);
      FromMore(Kept(rest, c, i).finder.stash, rest, stash);
      forall f | f in stash && !AheadOf(c, f.first) ensures f in rest {
        var k :| 0 <= k < |stash| && stash[k] == f;
        assert rest[if k < i then k else k - 1] == f;
      }
    } else {
      KeptFrom(stash, c, i + 1);
    }
  }

  lemma StepFrom(m: Finder, op: Op)
    ensures From(Step(m, op).out, m.stash + GivenBy(op)) && From(Step(m, op).finder.stash, m.stash + GivenBy(op))
  {
    var whole := m.stash + GivenBy(op);
    match op {
      case Manage(f) =>
        var (s, d, g) := Managed(m.state, f);
        assert whole[|m.stash|] == f && SameFrame(g, f) && Among(g, whole) && Among(f, whole);
        assert From([g], whole) && From([f], whole);
        FromSelf(m.stash);
        FromMore(m.stash, m.stash, whole);
        if d == HandOff {
          RetriedFrom(s, m.stash);
          FromMore(Retried(s, m.stash).out, m.stash, whole);
          FromMore(Retried(s, m.stash).finder.stash, m.stash, whole);
          FromSum([g], Retried(s, m.stash).out, whole);
        } else if d == Stash {
          assert m.stash == Trimmed(m.stash) + m.stash[|Trimmed(m.stash)|..];
          FromSum(Trimmed(m.stash), m.stash[|Trimmed(m.stash)|..], whole);
          FromSum([f], Trimmed(m.stash), whole);
        }
      case Padding(at) =>
        assert whole == m.stash;
        RetriedFrom(WithPadding(m.state, Low(at)), m.stash);
      case Clear(c) =>
        assert whole == m.stash;
        KeptFrom(m.stash, c, 0);
    }
  }

  /** No frame starts before c. */
  ghost predicate NoneOlder(c: SeqNum, fs: seq<Frame>) { forall i :: 0 <= i < |fs| ==> !AheadOf(c, fs[i].first) }

  lemma FromNoneOlder(c: SeqNum, fs: seq<Frame>, whole: seq<Frame>)
    requires From(fs, whole) && NoneOlder(c, whole)
    ensures NoneOlder(c, fs)
  {
    forall i | 0 <= i < |fs| ensures !AheadOf(c, fs[i].first) {
      assert Among(fs[i], whole);
      var j :| 0 <= j < |whole| && SameFrame(fs[i], whole[j]);
    }
  }

  // ---- The stash and the losses --------------------------------------------------------------

  lemma {:induction false} StashBounded(ops: seq<Op>)
    ensures |After(ops).finder.stash| <= MAX_STASHED_FRAMES + 1
  {
    if ops != [] {
      StashBounded(ops[..|ops| - 1]);
      StashStep(After(ops[..|ops| - 1]).finder, ops[|ops| - 1]);
    }
  }

  lemma StashStep(m: Finder, op: Op)
    requires |m.stash| <= MAX_STASHED_FRAMES + 1
    ensures |Step(m, op).finder.stash| <= MAX_STASHED_FRAMES + 1
  {
    if op.Manage? {
      var (s, d, g) := Managed(m.state, op.frame);
      assert d == HandOff ==> Step(m, op).finder == Retried(s, m.stash).finder;
    }
  }

  /** Every group is newer than x. */
  ghost predicate NoGroupFor(g: seq<Gop>, x: SeqNum) { forall i :: 0 <= i < |g| ==> AheadOf(g[i].key, x) }

  /** Why the operation gives a frame up: it starts before the number cleared to; it is the oldest of a full
      stash; or every group that is left afterwards is newer than the frame. */
  ghost predicate Justified(m: Finder, op: Op, l: Loss)
  {
    match l.why
    case Cleared => op.Clear? && AheadOf(op.seqNum, l.frame.first)
    case StashFull => op.Manage? && |m.stash| == MAX_STASHED_FRAMES + 1 && l.frame == m.stash[MAX_STASHED_FRAMES]
    case NoGroup => !op.Clear? && NoGroupFor(Step(m, op).finder.state.gop, l.frame.last)
  }

  lemma DroppedNoGroup(base: SeqNum, s: State, f: Frame)
    requires Ordered(base, s.gop) && FrameIn(base, f) && Decide(s.gop, f) == Drop
    ensures NoGroupFor(Managed(s, f).0.gop, f.last)
  {
    GroupsAfter(base, s, f);
    var g := Cleaned(s.gop, f.last);
    SuffixOrdered(base, s.gop, Stale(s.gop, Minus(f.last, 100)));
    forall i | 0 <= i < |g| ensures AheadOf(g[i].key, f.last) {
      UpperSplits(base, g, f.last, i);
      OrderInWindow(base, g[i].key, f.last);
    }
  }

  ghost predicate KeysIn(base: SeqNum, g: seq<Gop>) { forall i :: 0 <= i < |g| ==> In(base, g[i].key) }

  lemma PaddedNoGroup(base: SeqNum, g: seq<Gop>, padding: set<SeqNum>, y: SeqNum, x: SeqNum)
    requires KeysIn(base, g) && In(base, x) && In(base, y) && NoGroupFor(g, x)
    ensures NoGroupFor(Padded(g, padding, y), x)
  {
    var k := UpperBound(g, y);
    if k > 0 {
      OrderInWindow(base, g[k - 1].key, x);
      OrderInWindow(base, g[k - 1].key, y);
      OrderInWindow(base, y, x);
    }
  }

  lemma ExtendedNoGroup(base: SeqNum, g: seq<Gop>, i: nat, y: SeqNum, x: SeqNum)
    requires KeysIn(base, g) && i < |g| && NoGroupFor(g, x)
    ensures KeysIn(base, Extended(g, i, y)) && NoGroupFor(Extended(g, i, y), x)
  {
  }

  lemma CleanedNoGroup(base: SeqNum, g: seq<Gop>, y: SeqNum, x: SeqNum)
    requires Ordered(base, g) && NoGroupFor(g, x)
    ensures KeysIn(base, Cleaned(g, y)) && NoGroupFor(Cleaned(g, y), x)
  {
    forall i | 0 <= i < |Cleaned(g, y)| ensures In(base, Cleaned(g, y)[i].key) && AheadOf(Cleaned(g, y)[i].key, x) {
      assert Cleaned(g, y)[i] == g[i + Stale(g, Minus(y, MAX_GOP_AGE))];
    }
  }

  /** Managing another frame makes no group for x: groups are forgotten, or re-keyed to newer numbers. */
  lemma ManagedNoGroup(base: SeqNum, s: State, f: Frame, x: SeqNum)
    requires Ordered(base, s.gop) && FrameIn(base, f) && !f.kind.KeyFrame?
    requires In(base, x) && NoGroupFor(s.gop, x)
    ensures NoGroupFor(Managed(s, f).0.gop, x)
  {
    if s.gop != [] {
      var g2 := Cleaned(s.gop, f.last);
      CleanedNoGroup(base, s.gop, f.last, x);
      if Decide(s.gop, f) == HandOff {
        var i := UpperBound(g2, f.last) - 1;
        ExtendedNoGroup(base, g2, i, f.last, x);
        PaddedNoGroup(base, Extended(g2, i, f.last), s.padding, f.last, x);
      }
    }
  }

  lemma {:induction false} PassNoGroup(start: int, s: State, stash: seq<Frame>, i: nat, x: SeqNum,
                                       history: seq<Frame>, reported: set<int>)
    requires Core(start, s, history, reported) && StashIn(start, stash) && i <= |stash|
    requires In(Low(start), x) && NoGroupFor(s.gop, x)
    ensures NoGroupFor(Pass(s, stash, i).finder.state.gop, x)
    decreases |stash| - i
  {
    if i < |stash| {
      var (s', d, f) := Managed(s, stash[i]);
      WithoutIn(start, stash, i);
      ManagedCore(start, s, stash[i], history, reported);
      ManagedNoGroup(Low(start), s, stash[i], x);
      if d == Stash {
        PassNoGroup(start, s', stash, i + 1, x, history, reported);
      } else {
        PassNoGroup(start, s', Without(stash, i), i, x, if d == HandOff then history + [f] else history, reported);
      }
    }
  }

  lemma {:induction false} RetriedNoGroup(start: int, s: State, stash: seq<Frame>, x: SeqNum, history: seq<Frame>,
                                          reported: set<int>)
    requires Core(start, s, history, reported) && StashIn(start, stash) && In(Low(start), x) && NoGroupFor(s.gop, x)
    ensures NoGroupFor(Retried(s, stash).finder.state.gop, x)
    decreases |stash|
  {
    PassNoGroup(start, s, stash, 0, x, history, reported);
    PassGood(start, s, stash, 0, history, reported);
    var r := Pass(s, stash, 0);
    if r.out != [] { RetriedNoGroup(start, r.finder.state, r.finder.stash, x, history + r.out, reported); }
  }

  lemma {:induction false} PassLosses(start: int, s: State, stash: seq<Frame>, i: nat, l: Loss, history: seq<Frame>,
                                      reported: set<int>)
    requires Core(start, s, history, reported) && StashIn(start, stash) && i <= |stash| && l in Pass(s, stash, i).lost
    ensures l.why == NoGroup && In(Low(start), l.frame.last) &&
            NoGroupFor(Pass(s, stash, i).finder.state.gop, l.frame.last)
    decreases |stash| - i
  {
    var (s', d, f) := Managed(s, stash[i]);
    WithoutIn(start, stash, i);
    ManagedCore(start, s, stash[i], history, reported);
    var rest := Without(stash, i);
    match d {
      case Stash => PassLosses(start, s', stash, i + 1, l, history, reported);
      case HandOff => PassLosses(start, s', rest, i, l, history + [f], reported);
      case Drop =>
        if l == Loss(stash[i], NoGroup) {
          DroppedNoGroup(Low(start), s, stash[i]);
          PassNoGroup(start, s', rest, i, l.frame.last, history, reported);
        } else {
          PassLosses(start, s', rest, i, l, history, reported);
        }
    }
  }

  lemma {:induction false} RetriedLosses(start: int, s: State, stash: seq<Frame>, l: Loss, history: seq<Frame>,
                                         reported: set<int>)
    requires Core(start, s, history, reported) && StashIn(start, stash) && l in Retried(s, stash).lost
    ensures l.why == NoGroup && NoGroupFor(Retried(s, stash).finder.state.gop, l.frame.last)
    decreases |stash|
  {
    var r := Pass(s, stash, 0);
    PassGood(start, s, stash, 0, history, reported);
    if l in r.lost {
      PassLosses(start, s, stash, 0, l, history, reported);
      if r.out != [] { RetriedNoGroup(start, r.finder.state, r.finder.stash, l.frame.last, history + r.out, reported); }
    } else {
      RetriedLosses(start, r.finder.state, r.finder.stash, l, history + r.out, reported);
    }
  }

  lemma {:induction false} KeptLosses(stash: seq<Frame>, c: SeqNum, i: nat, l: Loss)
    requires i <= |stash| && l in Kept(stash, c, i).lost
    ensures l.why == Cleared && AheadOf(c, l.frame.first)
    decreases |stash| - i
  {
    if AheadOf(c, stash[i].first) {
      if l != Loss(stash[i], Cleared) { KeptLosses(Without(stash, i), c, i, l); }
    } else {
      KeptLosses(stash, c, i + 1, l);
    }
  }

  /** Every loss of an operation has its reason. */
  lemma StepLosses(start: int, m: Finder, op: Op, l: Loss, history: seq<Frame>, reported: set<int>)
    requires Good(start, m, history, reported) && OpIn(start, op)
    requires |m.stash| <= MAX_STASHED_FRAMES + 1 && l in Step(m, op).lost
    ensures Justified(m, op, l)
  {
    match op {
      case Manage(f) => ManagingLosses(start, m, f, l, history, reported);
      case Padding(at) =>
        MorePaddingCore(start, m.state, history, reported, at);
        RetriedLosses(start, WithPadding(m.state, Low(at)), m.stash, l, history, reported + {at});
      case Clear(c) => KeptLosses(m.stash, c, 0, l);
    }
  }

  lemma ManagingLosses(start: int, m: Finder, f: Frame, l: Loss, history: seq<Frame>, reported: set<int>)
    requires Good(start, m, history, reported) && FrameAt(start, f)
    requires |m.stash| <= MAX_STASHED_FRAMES + 1 && l in Managing(m, f).lost
    ensures Justified(m, Manage(f), l)
  {
    var (s, d, g) := Managed(m.state, f);
    ManagedCore(start, m.state, f, history, reported);
    match d {
      case HandOff => RetriedLosses(start, s, m.stash, l, history + [g], reported);
      case Drop => DroppedNoGroup(Low(start), m.state, f);
      case Stash =>
    }
  }

  /** The loss has its reason in operation k of the run. */
  ghost predicate LostAt(ops: seq<Op>, l: Loss, k: nat) {
    k < |ops| && Justified(After(ops[..k]).finder, ops[k], l)
  }

  ghost predicate HasReason(ops: seq<Op>, l: Loss) { exists k: nat :: LostAt(ops, l, k) }

  /** Over every run that stays live, every loss has its reason. */
  lemma {:induction false} RunLosses(ops: seq<Op>, starts: seq<int>)
    requires StaysLive(ops, starts)
    ensures forall l :: l in After(ops).lost ==> HasReason(ops, l)
  {
    if ops != [] {
      var n := |ops| - 1;
      var before := ops[..n];
      var r := After(before);
      LivePrefix(ops, starts);
      RunLosses(before, starts[..n + 1]);
      RunGood(before, starts[..n + 1]);
      assert ops[..n] == before && Moves(starts[n], starts[n + 1], r.finder) && OpIn(starts[n + 1], ops[n]);
      MoveGood(starts[n], starts[n + 1], r.finder, r.out, Reported(before));
      StashBounded(before);
      forall l | l in After(ops).lost ensures HasReason(ops, l) {
        if l in r.lost {
          ReasonStays(ops, l);
        } else {
          StepLosses(starts[n + 1], r.finder, ops[n], l, r.out, Reported(before));
          assert LostAt(ops, l, n);
        }
      }
    }
  }

  lemma ReasonStays(ops: seq<Op>, l: Loss)
    requires ops != [] && HasReason(ops[..|ops| - 1], l)
    ensures HasReason(ops, l)
  {
    var before := ops[..|ops| - 1];
    var k: nat :| LostAt(before, l, k);
    assert before[..k] == ops[..k];
    assert LostAt(ops, l, k);
  }

  // ---- Key frames ------------------------------------------------------------------------------

  /** The frame was handed off without references. */
  ghost predicate KeyOut(out: seq<Frame>, f: Frame) {
    exists i :: 0 <= i < |out| && SameFrame(out[i], f) && out[i].refs == []
  }

  ghost predicate KeysOut(ops: seq<Op>, n: nat, out: seq<Frame>)
    requires n <= |ops|
  {
    forall k :: 0 <= k < n && ops[k].Manage? && ops[k].frame.kind.KeyFrame? ==> KeyOut(out, ops[k].frame)
  }

  lemma KeyOutLater(a: seq<Frame>, b: seq<Frame>, f: Frame)
    requires KeyOut(a, f) || KeyOut(b, f)
    ensures KeyOut(a + b, f)
  {
    if KeyOut(a, f) {
      var i :| 0 <= i < |a| && SameFrame(a[i], f) && a[i].refs == [];
      assert (a + b)[i] == a[i];
    } else {
      var i :| 0 <= i < |b| && SameFrame(b[i], f) && b[i].refs == [];
      assert (a + b)[|a| + i] == b[i];
    }
  }

  lemma KeyManaged(start: int, m: Finder, f: Frame, history: seq<Frame>, reported: set<int>)
    requires Good(start, m, history, reported) && FrameAt(start, f) && f.kind.KeyFrame?
    ensures KeyOut(Managing(m, f).out, f)
  {
    KeyFrameDelivered(Low(start), m.state.gop, f);
    var (s, d, g) := Managed(m.state, f);
    assert Managing(m, f).out[0] == g && SameFrame(g, f) && g.refs == [];
  }

  /** Over every run that stays live, every key frame given in is handed off at once. */
  lemma {:induction false} RunKeys(ops: seq<Op>, starts: seq<int>)
    requires StaysLive(ops, starts)
    ensures KeysOut(ops, |ops|, After(ops).out)
  {
    if ops != [] {
      var l := |ops| - 1;
      var before := ops[..l];
      LivePrefix(ops, starts);
      RunKeys(before, starts[..l + 1]);
      RunGood(before, starts[..l + 1]);
      var r := After(before);
      var t := Step(r.finder, ops[l]);
      assert ops[..l] == before && Moves(starts[l], starts[l + 1], r.finder) && OpIn(starts[l + 1], ops[l]);
      MoveGood(starts[l], starts[l + 1], r.finder, r.out, Reported(before));
      forall k | 0 <= k < |ops| && ops[k].Manage? && ops[k].frame.kind.KeyFrame?
        ensures KeyOut(r.out + t.out, ops[k].frame)
      {
        if k == l {
          KeyManaged(starts[l + 1], r.finder, ops[l].frame, r.out, Reported(before));
        } else {
          assert before[k] == ops[k];
        }
        KeyOutLater(r.out, t.out, ops[k].frame);
      }
    }
  }

  // ---- The order of waiting frames -----------------------------------------------------------------

  /** The waiting frame i was given in by operation at[i]; the newest ones come first. */
  ghost predicate GivenAt(ops: seq<Op>, stash: seq<Frame>, at: seq<nat>) {
    && |at| == |stash| && (forall i, j :: 0 <= i < j < |at| ==> at[i] > at[j])
    && forall i :: 0 <= i < |at| ==> at[i] < |ops| && ops[at[i]] == Manage(stash[i])
  }

  ghost predicate NewestFirst(ops: seq<Op>, stash: seq<Frame>) { exists at :: GivenAt(ops, stash, at) }

  lemma WithoutInOrder(ops: seq<Op>, stash: seq<Frame>, i: nat)
    requires NewestFirst(ops, stash) && i < |stash|
    ensures NewestFirst(ops, Without(stash, i))
  {
    var at :| GivenAt(ops, stash, at);
    assert GivenAt(ops, Without(stash, i), at[..i] + at[i + 1..]);
  }

  lemma {:induction false} PassInOrder(ops: seq<Op>, s: State, stash: seq<Frame>, i: nat)
    requires NewestFirst(ops, stash) && i <= |stash|
    ensures NewestFirst(ops, Pass(s, stash, i).finder.stash)
    decreases |stash| - i
  {
    if i < |stash| {
      var (s', d, f) := Managed(s, stash[i]);
      if d == Stash {
        PassInOrder(ops, s', stash, i + 1);
      } else {
        WithoutInOrder(ops, stash, i);
        PassInOrder(ops, s', Without(stash, i), i);
      }
    }
  }

  lemma {:induction false} RetriedInOrder(ops: seq<Op>, s: State, stash: seq<Frame>)
    requires NewestFirst(ops, stash)
    ensures NewestFirst(ops, Retried(s, stash).finder.stash)
    decreases |stash|
  {
    PassInOrder(ops, s, stash, 0);
    var r := Pass(s, stash, 0);
    if r.out != [] { RetriedInOrder(ops, r.finder.state, r.finder.stash); }
  }

  lemma {:induction false} KeptInOrder(ops: seq<Op>, stash: seq<Frame>, c: SeqNum, i: nat)
    requires NewestFirst(ops, stash) && i <= |stash|
    ensures NewestFirst(ops, Kept(stash, c, i).finder.stash)
    decreases |stash| - i
  {
    if i < |stash| {
      if AheadOf(c, stash[i].first) {
        WithoutInOrder(ops, stash, i);
        KeptInOrder(ops, Without(stash, i), c, i);
      } else {
        KeptInOrder(ops, stash, c, i + 1);
      }
    }
  }

  lemma MoreOps(ops: seq<Op>, op: Op, stash: seq<Frame>)
    requires NewestFirst(ops, stash)
    ensures NewestFirst(ops + [op], stash)
  {
    var at :| GivenAt(ops, stash, at);
    assert GivenAt(ops + [op], stash, at);
  }

  lemma PushInOrder(ops: seq<Op>, stash: seq<Frame>, f: Frame)
    requires NewestFirst(ops, stash)
    ensures NewestFirst(ops + [Manage(f)], [f] + Trimmed(stash))
  {
    var at :| GivenAt(ops, stash, at);
    var n := |Trimmed(stash)|;
    assert GivenAt(ops, Trimmed(stash), at[..n]);
    PushedAt(ops, Trimmed(stash), at[..n], f);
  }

  lemma PushedAt(ops: seq<Op>, stash: seq<Frame>, at: seq<nat>, f: Frame)
    requires GivenAt(ops, stash, at)
    ensures NewestFirst(ops + [Manage(f)], [f] + stash)
  {
    var all, fs := [|ops|] + at, [f] + stash;
    forall i | 0 <= i < |all| ensures all[i] <= |ops| && (ops + [Manage(f)])[all[i]] == Manage(fs[i]) {
      if i > 0 { assert all[i] == at[i - 1] && fs[i] == stash[i - 1]; }
    }
    forall i, j | 0 <= i < j < |all| ensures all[i] > all[j] {
      assert all[j] == at[j - 1];
      if i > 0 { assert all[i] == at[i - 1]; }
    }
    assert GivenAt(ops + [Manage(f)], fs, all);
  }

  lemma StepInOrder(ops: seq<Op>, m: Finder, op: Op)
    requires NewestFirst(ops, m.stash)
    ensures NewestFirst(ops + [op], Step(m, op).finder.stash)
  {
    MoreOps(ops, op, m.stash);
    match op {
      case Manage(f) =>
        var (s, d, g) := Managed(m.state, f);
        if d == Stash { PushInOrder(ops, m.stash, f); }
        if d == HandOff { RetriedInOrder(ops + [op], s, m.stash); }
      case Padding(at) => RetriedInOrder(ops + [op], WithPadding(m.state, Low(at)), m.stash);
      case Clear(c) => KeptInOrder(ops + [op], m.stash, c, 0);
    }
  }

  /** Over every run, frames wait in the order in which they were given in, the newest first; so that it is the oldest
      one that a full stash loses, from its end. */
  lemma {:induction false} RunInOrder(ops: seq<Op>)
    ensures NewestFirst(ops, After(ops).finder.stash)
  {
    if ops == [] {
      assert GivenAt(ops, [], []);
    } else {
      var before, op := ops[..|ops| - 1], ops[|ops| - 1];
      RunInOrder(before);
      StepInOrder(before, After(before).finder, op);
      LastStep(ops, before, op);
    }
  }

  lemma LastStep(ops: seq<Op>, before: seq<Op>, op: Op)
    requires ops != [] && before == ops[..|ops| - 1] && op == ops[|ops| - 1]
    ensures ops == before + [op] && After(ops).finder.stash == Step(After(before).finder, op).finder.stash
  {
  }
}
