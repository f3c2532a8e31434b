/** The VP8 reference finder as a value machine: what each operation hands off, keeps waiting and loses, and what
    this means over whole runs. */
module Vp8Machine {
  import opened Options
  import opened SeqNums
  import opened Unwrapping
  import opened GopMap
  import opened Vp8Layers

  const MAX_STASHED_FRAMES: nat := 100

  datatype Finder = Finder(state: State, stash: seq<Vp8Frame>)

  const EMPTY := Finder(NOTHING, [])

  /** The finder; the frames handed off, with their ids and references, and as they were given in; and the frames
      lost, because they were refused, because the stash was full, or because they start before a clear point. */
  datatype Outcome = Outcome(finder: Finder, out: seq<Vp8Frame>, given: seq<Vp8Frame>,
                             refused: seq<Vp8Frame>, pushedOut: seq<Vp8Frame>, cleared: seq<Vp8Frame>)

  datatype Op = Manage(frame: Vp8Frame) | Clear(seqNum: SeqNum)

  // ---- One operation ----------------------------------------------------------------

  function Quiet(m: Finder): Outcome { Outcome(m, [], [], [], [], []) }

  function Then(r: Outcome, t: Outcome): Outcome {
    Outcome(t.finder, r.out + t.out, r.given + t.given, r.refused + t.refused, r.pushedOut + t.pushedOut,
            r.cleared + t.cleared)
  }

  function Without(stash: seq<Vp8Frame>, i: nat): (r: seq<Vp8Frame>)
    requires i < |stash|
    ensures |r| == |stash| - 1
  { stash[..i] + stash[i + 1..] }

  /** The waiting frames once the one at position i has been tried, and where the next one is. */
  function Tried(stash: seq<Vp8Frame>, i: nat, d: Decision): (r: seq<Vp8Frame>)
    requires i < |stash|
    ensures NextAt(i, d) <= |r| <= |stash| && |r| - NextAt(i, d) == |stash| - i - 1
  { if d == Stash then stash else Without(stash, i) }

  function NextAt(i: nat, d: Decision): nat { if d == Stash then i + 1 else i }

  /** What came of a pass over the frames behind one, together with that one. */
  function Followed(d: Decision, f: Vp8Frame, g: Vp8Frame, r: Outcome): Outcome {
    match d
    case Stash => r
    case HandOff => r.(out := [g] + r.out, given := [f] + r.given)
    case Drop => r.(refused := [f] + r.refused)
  }

  /** One pass over the waiting frames from position i on. */
  ghost function Pass(s: State, stash: seq<Vp8Frame>, i: nat): (r: Outcome)
    requires i <= |stash|
    ensures i <= |r.finder.stash| && |r.finder.stash| + |r.out| <= |stash|
    decreases |stash| - i
  {
    if i == |stash| then Quiet(Finder(s, stash))
    else
      var (s', d, g) := Managed(s, stash[i]);
      Followed(d, stash[i], g, Pass(s', Tried(stash, i, d), NextAt(i, d)))
  }

  /** Passes over the waiting frames until one hands none off. */
  ghost function Retried(s: State, stash: seq<Vp8Frame>): (r: Outcome)
    ensures |r.finder.stash| <= |stash|
    decreases |stash|
  {
    var r := Pass(s, stash, 0);
    if r.out == [] then r else Then(r, Retried(r.finder.state, r.finder.stash))
  }

  /** The stash, without its last frame if it is full. */
  function Trimmed(stash: seq<Vp8Frame>): seq<Vp8Frame> {
    if |stash| > MAX_STASHED_FRAMES then stash[..|stash| - 1] else stash
  }

  function Overflow(stash: seq<Vp8Frame>): seq<Vp8Frame> {
    if |stash| > MAX_STASHED_FRAMES then [stash[|stash| - 1]] else []
  }

  ghost function Managing(m: Finder, f: Vp8Frame): Outcome {
    var (s, d, g) := Managed(m.state, f);
    match d
    case Stash => Quiet(Finder(s, [f] + Trimmed(m.stash))).(pushedOut := Overflow(m.stash))
    case HandOff => Followed(d, f, g, Retried(s, m.stash))
    case Drop => Quiet(Finder(s, m.stash)).(refused := [f])
  }

  /** The waiting frames without those that start before c, from position i on, and the others. */
  function Kept(stash: seq<Vp8Frame>, c: SeqNum, i: nat): (r: (seq<Vp8Frame>, seq<Vp8Frame>))
    requires i <= |stash|
    ensures |r.0| <= |stash|
    decreases |stash| - i
  {
    if i == |stash| then (stash, [])
    else if AheadOf(c, stash[i].first) then
      var r := Kept(Without(stash, i), c, i); (r.0, [stash[i]] + r.1)
    else Kept(stash, c, i + 1)
  }

  function Clearing(m: Finder, c: SeqNum): Outcome {
    var r := Kept(m.stash, c, 0); Quiet(m.(stash := r.0)).(cleared := r.1)
  }

  ghost function Step(m: Finder, op: Op): Outcome {
    match op
    case Manage(f) => Managing(m, f)
    case Clear(c) => Clearing(m, c)
  }

  ghost function After(ops: seq<Op>): Outcome {
    if ops == [] then Quiet(EMPTY)
    else
      var r := After(ops[..|ops| - 1]);
      Then(r, Step(r.finder, ops[|ops| - 1]))
  }

  // ---- Everything handed off is sound ---------------------------------------------------

  /** Whatever was handed off before, everything is sound afterwards. */
  ghost predicate LeadsTo(history: seq<Vp8Frame>, r: Outcome) { Core(r.finder.state, history + r.out) }

  lemma NothingMore(history: seq<Vp8Frame>, m: Finder, r: Outcome)
    requires Core(m.state, history) && r.finder.state == m.state && r.out == []
    ensures LeadsTo(history, r)
  {
    assert history + [] == history;
  }

  lemma FollowedCore(history: seq<Vp8Frame>, d: Decision, f: Vp8Frame, g: Vp8Frame, r: Outcome)
    requires LeadsTo(if d == HandOff then history + [g] else history, r)
    ensures LeadsTo(history, Followed(d, f, g, r))
  {
    if d == HandOff { assert history + [g] + r.out == history + ([g] + r.out); }
  }

  lemma {:induction false} PassCore(s: State, stash: seq<Vp8Frame>, i: nat, history: seq<Vp8Frame>)
    requires i <= |stash| && Core(s, history)
    ensures LeadsTo(history, Pass(s, stash, i))
    decreases |stash| - i
  {
    if i == |stash| {
      NothingMore(history, Finder(s, stash), Pass(s, stash, i));
    } else {
      ManagedCore(s, stash[i], history);
      var (s', d, g) := Managed(s, stash[i]);
      PassCore(s', Tried(stash, i, d), NextAt(i, d), if d == HandOff then history + [g] else history);
      FollowedCore(history, d, stash[i], g, Pass(s', Tried(stash, i, d), NextAt(i, d)));
    }
  }

  lemma ThenCore(history: seq<Vp8Frame>, r: Outcome, t: Outcome)
    requires LeadsTo(history + r.out, t)
    ensures LeadsTo(history, Then(r, t))
  {
    assert history + r.out + t.out == history + (r.out + t.out);
  }

  lemma {:induction false} RetriedCore(s: State, stash: seq<Vp8Frame>, history: seq<Vp8Frame>)
    requires Core(s, history)
    ensures LeadsTo(history, Retried(s, stash))
    decreases |stash|
  {
    PassCore(s, stash, 0, history);
    var r := Pass(s, stash, 0);
    if r.out != [] {
      RetriedCore(r.finder.state, r.finder.stash, history + r.out);
      ThenCore(history, r, Retried(r.finder.state, r.finder.stash));
    }
  }

  lemma ManagingCore(m: Finder, f: Vp8Frame, history: seq<Vp8Frame>, s: State, d: Decision, g: Vp8Frame)
    requires Managed(m.state, f) == (s, d, g) && Core(s, if d == HandOff then history + [g] else history)
    ensures LeadsTo(history, Managing(m, f))
  {
    if d == HandOff {
      RetriedCore(s, m.stash, history + [g]);
      FollowedCore(history, d, f, g, Retried(s, m.stash));
    } else {
      NothingMore(history, Finder(s, []), Managing(m, f));
    }
  }

  lemma StepCore(m: Finder, op: Op, history: seq<Vp8Frame>)
    requires Core(m.state, history)
    ensures LeadsTo(history, Step(m, op))
  {
    match op {
      case Manage(f) =>
        ManagedCore(m.state, f, history);
        ManagingCore(m, f, history, Managed(m.state, f).0, Managed(m.state, f).1, Managed(m.state, f).2);
      case Clear(c) => NothingMore(history, m, Step(m, op));
    }
  }

  /** Over every run, every reference of a frame handed off is the picture id of a frame handed off earlier. */
  lemma {:induction false} RunCore(ops: seq<Op>)
    ensures Core(After(ops).finder.state, After(ops).out)
  {
    if ops != [] {
      RunCore(ops[..|ops| - 1]);
      var r := After(ops[..|ops| - 1]);
      StepCore(r.finder, ops[|ops| - 1], r.out);
    } else {
      assert SoundHistory([]);
    }
  }

  // ---- Where frames go -------------------------------------------------------------------

  /** The frames waiting, handed off and lost. */
  ghost function All(r: Outcome): multiset<Vp8Frame> {
    multiset(r.finder.stash) + multiset(r.given) + Lost(r)
  }

  ghost function Lost(r: Outcome): multiset<Vp8Frame> {
    multiset(r.refused) + multiset(r.pushedOut) + multiset(r.cleared)
  }

  /** What was handed off is what was given in, with ids and references set. */
  ghost predicate SameFrames(out: seq<Vp8Frame>, given: seq<Vp8Frame>) {
    |out| == |given| && forall i :: 0 <= i < |out| ==> out[i] == given[i].(id := out[i].id, refs := out[i].refs)
  }

  /** The frames `whole` are split into those waiting, handed off and lost. */
  ghost predicate Splits(whole: multiset<Vp8Frame>, r: Outcome) { All(r) == whole && SameFrames(r.out, r.given) }

  lemma BagMore(f: Vp8Frame, fs: seq<Vp8Frame>)
    ensures multiset([f] + fs) == multiset{f} + multiset(fs)
  {
  }

  lemma SameMore(out: seq<Vp8Frame>, given: seq<Vp8Frame>, out': seq<Vp8Frame>, given': seq<Vp8Frame>)
    requires SameFrames(out, given) && SameFrames(out', given')
    ensures SameFrames(out + out', given + given')
  {
  }

  lemma FollowedSplits(whole: multiset<Vp8Frame>, d: Decision, f: Vp8Frame, g: Vp8Frame, r: Outcome)
    requires Splits(whole, r) && g == f.(id := g.id, refs := g.refs) && d != Stash
    ensures Splits(whole + multiset{f}, Followed(d, f, g, r))
  {
    if d == HandOff {
      BagMore(f, r.given);
      SameMore([g], [f], r.out, r.given);
    } else {
      BagMore(f, r.refused);
    }
  }

  lemma TriedOne(stash: seq<Vp8Frame>, i: nat, d: Decision)
    requires i < |stash| && d != Stash
    ensures multiset(stash) == multiset(Tried(stash, i, d)) + multiset{stash[i]}
  {
    assert stash == stash[..i] + [stash[i]] + stash[i + 1..];
  }

  lemma SameButNamed(s: State, f: Vp8Frame)
    ensures var g := Managed(s, f).2; g == f.(id := g.id, refs := g.refs)
  {
  }

  lemma {:induction false} PassSplits(s: State, stash: seq<Vp8Frame>, i: nat)
    requires i <= |stash|
    ensures Splits(multiset(stash), Pass(s, stash, i))
    decreases |stash| - i
  {
    if i < |stash| {
      var (s', d, g) := Managed(s, stash[i]);
      var r := Pass(s', Tried(stash, i, d), NextAt(i, d));
      PassSplits(s', Tried(stash, i, d), NextAt(i, d));
      SameButNamed(s, stash[i]);
      if d != Stash {
        TriedOne(stash, i, d);
        FollowedSplits(multiset(Tried(stash, i, d)), d, stash[i], g, r);
      }
    }
  }

  lemma ThenSplits(whole: multiset<Vp8Frame>, r: Outcome, t: Outcome, more: multiset<Vp8Frame>)
    requires Splits(whole, r) && Splits(multiset(r.finder.stash) + more, t)
    ensures Splits(whole + more, Then(r, t))
  {
    SameMore(r.out, r.given, t.out, t.given);
    assert multiset(r.given + t.given) == multiset(r.given) + multiset(t.given);
    assert Lost(Then(r, t)) == Lost(r) + Lost(t);
    assert All(Then(r, t)) == multiset(r.given) + Lost(r) + All(t);
  }

  lemma {:induction false} RetriedSplits(s: State, stash: seq<Vp8Frame>)
    ensures Splits(multiset(stash), Retried(s, stash))
    decreases |stash|
  {
    PassSplits(s, stash, 0);
    var r := Pass(s, stash, 0);
    if r.out != [] {
      RetriedSplits(r.finder.state, r.finder.stash);
      ThenSplits(multiset(stash), r, Retried(r.finder.state, r.finder.stash), multiset{});
    }
  }

  lemma {:induction false} KeptSplits(stash: seq<Vp8Frame>, c: SeqNum, i: nat)
    requires i <= |stash|
    ensures multiset(stash) == multiset(Kept(stash, c, i).0) + multiset(Kept(stash, c, i).1)
    decreases |stash| - i
  {
    if i < |stash| {
      if AheadOf(c, stash[i].first) {
        KeptSplits(Without(stash, i), c, i);
        TriedOne(stash, i, Drop);
      } else {
        KeptSplits(stash, c, i + 1);
      }
    }
  }

  ghost predicate AllStart(stash: seq<Vp8Frame>, c: SeqNum, before: bool) {
    forall j :: 0 <= j < |stash| ==> AheadOf(c, stash[j].first) == before
  }

  lemma {:induction false} KeptApart(stash: seq<Vp8Frame>, c: SeqNum, i: nat)
    requires i <= |stash| && AllStart(stash[..i], c, false)
    ensures AllStart(Kept(stash, c, i).0, c, false) && AllStart(Kept(stash, c, i).1, c, true)
    decreases |stash| - i
  {
    if i == |stash| {
      assert stash[..i] == stash;
    } else if AheadOf(c, stash[i].first) {
      assert Without(stash, i)[..i] == stash[..i];
      KeptApart(Without(stash, i), c, i);
    } else {
      assert stash[..i + 1] == stash[..i] + [stash[i]];
      KeptApart(stash, c, i + 1);
    }
  }

  /** Clearing keeps exactly the frames that do not start before the number. */
  lemma KeptExactly(stash: seq<Vp8Frame>, c: SeqNum)
    ensures forall f :: f in Kept(stash, c, 0).0 <==> f in stash && !AheadOf(c, f.first)
  {
    KeptSplits(stash, c, 0);
    KeptApart(stash, c, 0);
    var (kept, gone) := Kept(stash, c, 0);
    forall f ensures f in stash <==> f in kept || f in gone {
      assert f in multiset(stash) <==> f in multiset(kept) || f in multiset(gone);
    }
  }

  ghost function GivenBy(op: Op): multiset<Vp8Frame> { if op.Manage? then multiset{op.frame} else multiset{} }

  lemma StepSplits(m: Finder, op: Op)
    ensures Splits(multiset(m.stash) + GivenBy(op), Step(m, op))
  {
    match op {
      case Manage(f) =>
        ManagingSplits(m, f, Managed(m.state, f).0, Managed(m.state, f).1, Managed(m.state, f).2);
      case Clear(c) => KeptSplits(m.stash, c, 0);
    }
  }

  lemma ManagingSplits(m: Finder, f: Vp8Frame, s: State, d: Decision, g: Vp8Frame)
    requires Managed(m.state, f) == (s, d, g)
    ensures Splits(multiset(m.stash) + multiset{f}, Managing(m, f))
  {
    match d {
      case Stash => StashSplits(m.stash, f);
      case HandOff =>
        RetriedSplits(s, m.stash);
        SameButNamed(m.state, f);
        FollowedSplits(multiset(m.stash), d, f, g, Retried(s, m.stash));
      case Drop =>
    }
  }

  lemma StashSplits(stash: seq<Vp8Frame>, f: Vp8Frame)
    ensures multiset([f] + Trimmed(stash)) + multiset(Overflow(stash)) == multiset(stash) + multiset{f}
  {
    if |stash| > MAX_STASHED_FRAMES { assert stash == stash[..|stash| - 1] + [stash[|stash| - 1]]; }
  }

  /** The frames given in by a run. */
  ghost function Given(ops: seq<Op>): multiset<Vp8Frame> {
    if ops == [] then multiset{} else Given(ops[..|ops| - 1]) + GivenBy(ops[|ops| - 1])
  }

  /** Over every run, the frames given in are those waiting, those handed off, and those lost. */
  lemma {:induction false} RunSplits(ops: seq<Op>)
    ensures Splits(Given(ops), After(ops))
  {
    if ops != [] {
      RunSplits(ops[..|ops| - 1]);
      var r, op := After(ops[..|ops| - 1]), ops[|ops| - 1];
      StepSplits(r.finder, op);
      ThenSplits(Given(ops[..|ops| - 1]), r, Step(r.finder, op), GivenBy(op));
    }
  }

  // ---- Why frames are lost -----------------------------------------------------------------

  predicate BaseKey(f: Vp8Frame) { f.isKey && f.temporalIdx == 0 }

  ghost predicate NoBaseKey(fs: seq<Vp8Frame>) { forall f :: f in fs ==> !BaseKey(f) }

  ghost predicate ClearedBy(ops: seq<Op>, f: Vp8Frame) {
    exists k :: 0 <= k < |ops| && ops[k].Clear? && AheadOf(ops[k].seqNum, f.first)
  }

  /** Base-layer key frames never wait and are never lost; frames are cleared only if they start before a clear
      point; and at most 101 frames wait. */
  ghost predicate LossesOk(ops: seq<Op>, r: Outcome) {
    && NoBaseKey(r.finder.stash) && NoBaseKey(r.refused) && NoBaseKey(r.pushedOut) && NoBaseKey(r.cleared)
    && |r.finder.stash| <= MAX_STASHED_FRAMES + 1 && forall f :: f in r.cleared ==> ClearedBy(ops, f)
  }

  lemma SubBag(a: seq<Vp8Frame>, whole: multiset<Vp8Frame>)
    requires multiset(a) <= whole && forall f :: f in whole ==> !BaseKey(f)
    ensures NoBaseKey(a)
  {
    forall f | f in a ensures !BaseKey(f) { assert f in multiset(a); }
  }

  lemma RetriedNoKey(s: State, stash: seq<Vp8Frame>)
    requires NoBaseKey(stash)
    ensures var r := Retried(s, stash); NoBaseKey(r.finder.stash) && NoBaseKey(r.refused)
  {
    RetriedSplits(s, stash);
    SubBag(Retried(s, stash).finder.stash, multiset(stash));
    SubBag(Retried(s, stash).refused, multiset(stash));
  }

  lemma {:induction false} PassLosses(s: State, stash: seq<Vp8Frame>, i: nat)
    requires i <= |stash|
    ensures Pass(s, stash, i).pushedOut == [] && Pass(s, stash, i).cleared == []
    decreases |stash| - i
  {
    if i < |stash| {
      var (s', d, g) := Managed(s, stash[i]);
      PassLosses(s', Tried(stash, i, d), NextAt(i, d));
    }
  }

  lemma {:induction false} RetriedLosses(s: State, stash: seq<Vp8Frame>)
    ensures Retried(s, stash).pushedOut == [] && Retried(s, stash).cleared == []
    decreases |stash|
  {
    PassLosses(s, stash, 0);
    var r := Pass(s, stash, 0);
    if r.out != [] { RetriedLosses(r.finder.state, r.finder.stash); }
  }

  lemma StepLosses(m: Finder, op: Op)
    requires NoBaseKey(m.stash) && |m.stash| <= MAX_STASHED_FRAMES + 1
    ensures LossesOk([op], Step(m, op))
  {
    match op {
      case Manage(f) =>
        ManagingLosses(m, f, Managed(m.state, f).0, Managed(m.state, f).1, Managed(m.state, f).2);
      case Clear(c) => ClearingLosses(m, c);
    }
  }

  lemma ManagingLosses(m: Finder, f: Vp8Frame, s: State, d: Decision, g: Vp8Frame)
    requires Managed(m.state, f) == (s, d, g) && NoBaseKey(m.stash) && |m.stash| <= MAX_STASHED_FRAMES + 1
    ensures LossesOk([Manage(f)], Managing(m, f))
  {
    if d == HandOff {
      RetriedNoKey(s, m.stash);
      RetriedLosses(s, m.stash);
    }
  }

  lemma ClearingLosses(m: Finder, c: SeqNum)
    requires NoBaseKey(m.stash) && |m.stash| <= MAX_STASHED_FRAMES + 1
    ensures LossesOk([Clear(c)], Clearing(m, c))
  {
    var (kept, gone) := Kept(m.stash, c, 0);
    KeptSplits(m.stash, c, 0);
    KeptApart(m.stash, c, 0);
    SubBag(kept, multiset(m.stash));
    SubBag(gone, multiset(m.stash));
    forall f | f in gone ensures ClearedBy([Clear(c)], f) { assert [Clear(c)][0].Clear?; }
  }

  lemma LossesMore(ops: seq<Op>, op: Op, r: Outcome, t: Outcome)
    requires LossesOk(ops, r) && LossesOk([op], t)
    ensures LossesOk(ops + [op], Then(r, t))
  {
    var more := ops + [op];
    forall f | f in r.cleared + t.cleared ensures ClearedBy(more, f) {
      if f in r.cleared {
        var k :| 0 <= k < |ops| && ops[k].Clear? && AheadOf(ops[k].seqNum, f.first);
        assert more[k].Clear?;
      } else {
        var k :| 0 <= k < 1 && [op][k].Clear? && AheadOf([op][k].seqNum, f.first);
        assert more[|ops|] == op;
      }
    }
  }

  lemma {:induction false} RunLosses(ops: seq<Op>)
    ensures LossesOk(ops, After(ops))
  {
    if ops != [] {
      var before, op := ops[..|ops| - 1], ops[|ops| - 1];
      RunLosses(before);
      StepLosses(After(before).finder, op);
      LossesMore(before, op, After(before), Step(After(before).finder, op));
      assert before + [op] == ops;
    }
  }

  // ---- The last pass ----------------------------------------------------------------------

  /** A pass over `tried` that hands none off, through the given states: the frames that stay are those decided
      to wait at their turn. */
  ghost predicate DryPass(states: seq<State>, tried: seq<Vp8Frame>, m: Finder) {
    && |states| == |tried| + 1 && states[|tried|] == m.state && m.stash == Undecided(states, tried)
    && forall k :: 0 <= k < |tried| ==> && states[k + 1] == Managed(states[k], tried[k]).0
                                        && Verdict(states[k], tried[k]) != HandOff
  }

  ghost function Undecided(states: seq<State>, tried: seq<Vp8Frame>): seq<Vp8Frame>
    requires |states| > |tried|
  {
    if tried == [] then []
    else (if Verdict(states[0], tried[0]) == Stash then [tried[0]] else []) + Undecided(states[1..], tried[1..])
  }

  /** A pass does not touch the frames it is past. */
  lemma {:induction false} PassPrefix(s: State, stash: seq<Vp8Frame>, i: nat)
    requires i <= |stash|
    ensures Pass(s, stash, i).finder.stash[..i] == stash[..i]
    decreases |stash| - i
  {
    if i < |stash| {
      var (s', d, g) := Managed(s, stash[i]);
      var rest, j := Tried(stash, i, d), NextAt(i, d);
      PassPrefix(s', rest, j);
      assert rest[..j][..i] == stash[..i];
      assert Pass(s', rest, j).finder.stash[..j][..i] == Pass(s', rest, j).finder.stash[..i];
    }
  }

  /** What a pass from position i on leaves there. */
  ghost function Rest(m: Finder, i: nat): Finder
    requires i <= |m.stash|
  { m.(stash := m.stash[i..]) }

  lemma {:induction false} PassDry(s: State, stash: seq<Vp8Frame>, i: nat) returns (states: seq<State>)
    requires i <= |stash| && Pass(s, stash, i).out == []
    ensures states != [] && states[0] == s && DryPass(states, stash[i..], Rest(Pass(s, stash, i).finder, i))
    decreases |stash| - i
  {
    if i == |stash| {
      states := [s];
    } else {
      var (s', d, g) := Managed(s, stash[i]);
      var rest, j := Tried(stash, i, d), NextAt(i, d);
      var later := PassDry(s', rest, j);
      PassPrefix(s', rest, j);
      var m := Pass(s', rest, j).finder;
      RestGrows(stash, i, d, m);
      DryMore(later, rest[j..], Rest(m, j), s, stash[i]);
      states := [s] + later;
    }
  }

  lemma RestGrows(stash: seq<Vp8Frame>, i: nat, d: Decision, m: Finder)
    requires i < |stash| && NextAt(i, d) <= |m.stash| && m.stash[..NextAt(i, d)] == Tried(stash, i, d)[..NextAt(i, d)]
    ensures Rest(m, i).stash == (if d == Stash then [stash[i]] else []) + Rest(m, NextAt(i, d)).stash
    ensures stash[i..] == [stash[i]] + Tried(stash, i, d)[NextAt(i, d)..]
  {
    assert Tried(stash, i, d)[NextAt(i, d)..] == stash[i + 1..];
    if d == Stash { assert m.stash[i] == m.stash[..i + 1][i] == stash[i]; }
  }

  lemma DryMore(states: seq<State>, tried: seq<Vp8Frame>, m: Finder, s: State, f: Vp8Frame)
    requires DryPass(states, tried, m) && states[0] == Managed(s, f).0 && Verdict(s, f) != HandOff
    ensures DryPass([s] + states, [f] + tried,
                    m.(stash := (if Verdict(s, f) == Stash then [f] else []) + m.stash))
  {
    var all, fs := [s] + states, [f] + tried;
    assert all[1..] == states && fs[1..] == tried;
    forall k | 0 <= k < |fs|
      ensures all[k + 1] == Managed(all[k], fs[k]).0 && Verdict(all[k], fs[k]) != HandOff
    {
      if k > 0 { assert all[k] == states[k - 1] && fs[k] == tried[k - 1]; }
    }
  }

  ghost predicate EndsDry(m: Finder) { exists states, tried :: DryPass(states, tried, m) }

  /** Retrying ends with a pass that hands none off. */
  lemma {:induction false} RetriedDry(s: State, stash: seq<Vp8Frame>)
    ensures EndsDry(Retried(s, stash).finder)
    decreases |stash|
  {
    var r := Pass(s, stash, 0);
    if r.out != [] {
      RetriedDry(r.finder.state, r.finder.stash);
    } else {
      var states := PassDry(s, stash, 0);
      assert stash[0..] == stash && r.finder.stash[0..] == r.finder.stash;
      assert DryPass(states, stash, r.finder);
    }
  }

  /** The counter values lie in half a counter range from base on. */
  predicate NearTl0(base: nat, x: nat) { base < 256 && x < 256 && Forward(256, base, x) < 128 }

  /** The frame has been noted: noting it again moves the unwrapper of base-layer counters and nothing else. */
  ghost predicate Calm(base: nat, s: State, f: Vp8Frame) {
    && s.tl0.last.Some? && NearTl0(base, s.tl0.last.value) && NearTl0(base, f.tl0PicIdx % 256)
    && Noted(s, f) == s.(tl0 := s.tl0.Moved(256, f.tl0PicIdx % 256))
  }

  lemma PeekAgain(base: nat, u: Tl0Unwrapper, x: nat, y: nat)
    requires u.last.Some? && NearTl0(base, u.last.value) && NearTl0(base, x) && NearTl0(base, y)
    ensures u.Moved(256, x).Peek(256, y) == u.Peek(256, y)
  {
  }

  /** Trying a frame that goes on waiting changes nothing for another one. */
  lemma WaitingStays(base: nat, s: State, f: Vp8Frame, g: Vp8Frame)
    requires Calm(base, s, f) && Calm(base, s, g) && Verdict(s, f) == Stash
    ensures var s' := Managed(s, f).0; Calm(base, s', g) && Verdict(s', g) == Verdict(s, g)
  {
    PeekAgain(base, s.tl0, f.tl0PicIdx % 256, g.tl0PicIdx % 256);
    assert Managed(s, f).0 == Noted(s, f);
  }

  /** As long as the frames have been noted and none is given up, the last pass leaves no frame waiting that could
      be handed off. */
  lemma {:induction false} PassSettles(base: nat, states: seq<State>, tried: seq<Vp8Frame>, m: Finder, n: nat)
    requires DryPass(states, tried, m) && n <= |tried|
    requires forall k :: 0 <= k < |tried| ==> Calm(base, states[0], tried[k])
    requires forall k :: 0 <= k < |tried| ==> Verdict(states[k], tried[k]) == Stash
    ensures forall k :: 0 <= k < |tried| ==> Calm(base, states[n], tried[k])
    ensures forall k :: 0 <= k < n ==> Verdict(states[n], tried[k]) == Stash
  {
    if n > 0 {
      PassSettles(base, states, tried, m, n - 1);
      forall k | 0 <= k < |tried|
        ensures Calm(base, states[n], tried[k]) && Verdict(states[n], tried[k]) == Verdict(states[n - 1], tried[k])
      {
        WaitingStays(base, states[n - 1], tried[n - 1], tried[k]);
      }
    }
  }

  lemma {:induction false} UndecidedTried(states: seq<State>, tried: seq<Vp8Frame>, f: Vp8Frame)
    requires |states| > |tried| && f in Undecided(states, tried)
    ensures f in tried
    decreases |tried|
  {
    if f in Undecided(states[1..], tried[1..]) { UndecidedTried(states[1..], tried[1..], f); }
  }

  /** So no frame that waits after such a pass could be handed off. */
  lemma NoneDeliverable(base: nat, states: seq<State>, tried: seq<Vp8Frame>, m: Finder)
    requires DryPass(states, tried, m)
    requires forall k :: 0 <= k < |tried| ==> Calm(base, states[0], tried[k])
    requires forall k :: 0 <= k < |tried| ==> Verdict(states[k], tried[k]) == Stash
    ensures forall f :: f in m.stash ==> Verdict(m.state, f) == Stash
  {
    PassSettles(base, states, tried, m, |tried|);
    forall f | f in m.stash ensures Verdict(m.state, f) == Stash { UndecidedTried(states, tried, f); }
  }

  // A base-layer frame, a sync frame on the next layer of the same base-layer frame, and, late, a key frame that
  // comes first by its base-layer counter and last by its picture id.
  const BASE := Vp8Frame(50, false, 5, 10, 0, false, 0, [])
  const SYNC := Vp8Frame(60, false, 6, 10, 1, true, 0, [])
  const LATE_KEY := Vp8Frame(70, true, 7, 9, 0, false, 0, [])

  /** While the key frame's layers are all there is, the sync frame waits, */
  lemma SyncWaits(s: State)
    requires s.info == map[9 := [7, -1, -1, -1, -1]] && Tl0(s, SYNC) == 10
    ensures var (t, d, g) := Managed(s, SYNC); d == Stash && t.info == s.info && t.tl0 == Unwrapper(Some(10), 10)
  {
    assert Recent(s.info, 10) == s.info;
  }

  /** and the base-layer frame is given up; but this opens the layers that the sync frame has been waiting for. */
  lemma BaseOpens(s: State)
    requires s.info == map[9 := [7, -1, -1, -1, -1]] && s.tl0 == Unwrapper(Some(10), 10)
    ensures var (t, d, g) := Managed(s, BASE); d == Drop && Verdict(t, SYNC) == HandOff
  {
    assert Recent(s.info, 10) == s.info;
    var t := Managed(s, BASE).0;
    assert t.info == s.info[10 := [7, -1, -1, -1, -1]];
    assert Recent(t.info, 10) == t.info;
  }

  lemma MissedStep(s: State)
    requires s.info == map[9 := [7, -1, -1, -1, -1]] && s.tl0 == Unwrapper(Some(9), 9)
    ensures var r := Retried(s, [SYNC, BASE]);
            r.out == [] && r.finder.stash == [SYNC] && Verdict(r.finder.state, SYNC) == HandOff
  {
    SyncWaits(s);
    BaseOpens(Managed(s, SYNC).0);
    PassMisses(s, Managed(s, SYNC).0, Managed(Managed(s, SYNC).0, BASE).0);
  }

  lemma PassMisses(s: State, t: State, u: State)
    requires Managed(s, SYNC).0 == t && Managed(s, SYNC).1 == Stash
    requires Managed(t, BASE).0 == u && Managed(t, BASE).1 == Drop
    ensures Retried(s, [SYNC, BASE]).finder == Finder(u, [SYNC]) && Retried(s, [SYNC, BASE]).out == []
  {
    assert Without([SYNC, BASE], 1) == [SYNC];
    assert Pass(u, [SYNC], 1) == Quiet(Finder(u, [SYNC]));
    assert Pass(t, [SYNC, BASE], 1) == Quiet(Finder(u, [SYNC])).(refused := [BASE]);
    assert Pass(s, [SYNC, BASE], 0) == Pass(t, [SYNC, BASE], 1);
  }

  lemma StashedFirst(s: State, f: Vp8Frame)
    requires s.info == map[] && !f.isKey && f.temporalIdx < 5 && f.tl0PicIdx == 10
    requires s.tl0 == FRESH || s.tl0 == Unwrapper(Some(10), 10)
    ensures var (t, d, g) := Managed(s, f); d == Stash && t.info == map[] && t.tl0 == Unwrapper(Some(10), 10)
  {
    assert Recent(s.info, 10) == map[];
  }

  lemma BothWait()
    ensures var m := After([Manage(BASE), Manage(SYNC)]).finder;
            m.stash == [SYNC, BASE] && m.state.info == map[] && m.state.tl0 == Unwrapper(Some(10), 10)
  {
    var ops := [Manage(BASE), Manage(SYNC)];
    assert ops[..1] == [Manage(BASE)] && ops[..1][..0] == [];
    StashedFirst(NOTHING, BASE);
    var s := Managed(NOTHING, BASE).0;
    assert After(ops[..1]).finder == Finder(s, [BASE]);
    StashedFirst(s, SYNC);
  }

  /** A frame can be left waiting that the next call would hand off: what a frame that is given up opens is not
      looked at by the frames tried before it in the last pass. */
  lemma RetriesCanMiss()
    ensures var m := After([Manage(BASE), Manage(SYNC), Manage(LATE_KEY)]).finder;
            m.stash == [SYNC] && Verdict(m.state, SYNC) == HandOff
  {
    var ops := [Manage(BASE), Manage(SYNC), Manage(LATE_KEY)];
    assert ops[..2] == [Manage(BASE), Manage(SYNC)];
    BothWait();
    var m := After(ops[..2]).finder;
    KeyAlone(m.state);
    MissedStep(Managed(m.state, LATE_KEY).0);
    assert Managing(m, LATE_KEY).finder == Retried(Managed(m.state, LATE_KEY).0, [SYNC, BASE]).finder;
  }

  lemma KeyAlone(t: State)
    requires t.info == map[] && t.tl0 == Unwrapper(Some(10), 10)
    ensures Verdict(t, LATE_KEY) == HandOff
    ensures var u := Managed(t, LATE_KEY).0; u.info == map[9 := [7, -1, -1, -1, -1]] && u.tl0 == Unwrapper(Some(9), 9)
  {
    var first: LayerInfo := map[9 := [-1, -1, -1, -1, -1]];
    assert Recent(t.info, 9) == map[];
    assert Opened(map[], LATE_KEY, 9) == first;
    LessAfter(first, 9, first[9][0 := 7]);
    assert Propagated(first, 9, 0, 7) == Propagated(first[9 := first[9][0 := 7]], 10, 0, 7);
    assert first[9][0 := 7] == [7, -1, -1, -1, -1];
    assert first[9 := first[9][0 := 7]] == map[9 := [7, -1, -1, -1, -1]];
  }
}
