/** The sequence-number reference finder as a value machine: what each operation hands off, keeps waiting and
    loses, and what this means over whole runs. */
module SeqNumMachine {
  import opened SeqNums
  import opened Unwrapping
  import opened GopMap
  import opened SeqNumState

  const MAX_STASHED_FRAMES: nat := 100

  datatype Finder = Finder(state: State, stash: seq<Frame>)

  const EMPTY := Finder(State([], {}, FRESH), [])

  /** Why a frame is given up: it has no group, the stash is full, or it starts before a clear point. */
  datatype Why = NoGroup | StashFull | Cleared

  datatype Loss = Loss(frame: Frame, why: Why)

  datatype Outcome = Outcome(finder: Finder, out: seq<Frame>, lost: seq<Loss>)

  /** A frame is complete, padding with the sender's unbounded number was received, or frames that start
      before a number are no longer wanted. */
  datatype Op = Manage(frame: Frame) | Padding(at: int) | Clear(seqNum: SeqNum)

  // ---- One operation ----------------------------------------------------------------

  function Without(stash: seq<Frame>, i: nat): (r: seq<Frame>)
    requires i < |stash|
    ensures |r| == |stash| - 1
  { stash[..i] + stash[i + 1..] }

  /** One pass over the waiting frames from position i on. */
  function Pass(s: State, stash: seq<Frame>, i: nat): (r: Outcome)
    requires i <= |stash|
    ensures |r.finder.stash| + |r.out| + |r.lost| == |stash|
    decreases |stash| - i
  {
    if i == |stash| then Outcome(Finder(s, stash), [], [])
    else
      var (s', d, f) := Managed(s, stash[i]);
      match d
      case Stash => Pass(s', stash, i + 1)
      case HandOff => var r := Pass(s', Without(stash, i), i); r.(out := [f] + r.out)
      case Drop => var r := Pass(s', Without(stash, i), i); r.(lost := [Loss(stash[i], NoGroup)] + r.lost)
  }

  /** Passes over the waiting frames until one hands none off. */
  function Retried(s: State, stash: seq<Frame>): (r: Outcome)
    ensures |r.finder.stash| <= |stash|
    decreases |stash|
  {
    var r := Pass(s, stash, 0);
    if r.out == [] then r
    else
      Then(r, Retried(r.finder.state, r.finder.stash))
  }

  /** The stash, without its last frame if it is full. */
  function Trimmed(stash: seq<Frame>): seq<Frame> {
    if |stash| > MAX_STASHED_FRAMES then stash[..|stash| - 1] else stash
  }

  function Overflow(stash: seq<Frame>): seq<Loss> {
    if |stash| > MAX_STASHED_FRAMES then [Loss(stash[|stash| - 1], StashFull)] else []
  }

  /** The stashed padding after one more number: those too old for it are forgotten. */
  function MorePadding(padding: set<SeqNum>, p: SeqNum): set<SeqNum> {
    (set q | q in padding && !AheadOf(Minus(p, GopMap.MAX_PADDING_AGE), q)) + {p}
  }

  /** p is added; of the padding stashed, what lies up to 100 numbers before p is kept, and what lies further back is
      forgotten. */
  lemma MorePaddingIs(padding: set<SeqNum>, p: SeqNum, q: SeqNum)
    ensures p in MorePadding(padding, p)
    ensures q in padding && ForwardDiff(q, p) <= 100 ==> q in MorePadding(padding, p)
    ensures 100 < ForwardDiff(q, p) < 32868 ==> q !in MorePadding(padding, p)
    ensures q in MorePadding(padding, p) ==> q == p || q in padding
  {
  }

  function WithPadding(s: State, p: SeqNum): State {
    var padding := MorePadding(s.padding, p);
    State(Padded(s.gop, padding, p), PaddingLeft(s.gop, padding, p), s.unwrapper)
  }

  /** The waiting frames that do not start before c, from position i on, and the others. */
  function Kept(stash: seq<Frame>, c: SeqNum, i: nat): (r: Outcome)
    requires i <= |stash|
    ensures r.out == [] && |r.finder.stash| <= |stash|
    decreases |stash| - i
  {
    if i == |stash| then Outcome(EMPTY.(stash := stash), [], [])
    else if AheadOf(c, stash[i].first) then
      var r := Kept(Without(stash, i), c, i); r.(lost := [Loss(stash[i], Cleared)] + r.lost)
    else Kept(stash, c, i + 1)
  }

  function Managing(m: Finder, f: Frame): (r: Outcome)
  {
    var (s, d, g) := Managed(m.state, f);
    match d
    case Stash => Outcome(Finder(s, [f] + Trimmed(m.stash)), [], Overflow(m.stash))
    case HandOff => Then(Outcome(m, [g], []), Retried(s, m.stash))
    case Drop => Outcome(Finder(s, m.stash), [], [Loss(f, NoGroup)])
  }

  function Clearing(m: Finder, c: SeqNum): (r: Outcome) {
    var r := Kept(m.stash, c, 0); r.(finder := Finder(m.state, r.finder.stash))
  }

  function Step(m: Finder, op: Op): (r: Outcome)
  {
    match op
    case Manage(f) => Managing(m, f)
    case Padding(at) => Retried(WithPadding(m.state, Low(at)), m.stash)
    case Clear(c) => Clearing(m, c)
  }

  /** Everything that was handed off and lost, and the finder, after a run. */
  function After(ops: seq<Op>): (r: Outcome)
  {
    if ops == [] then Outcome(EMPTY, [], [])
    else
      var r := After(ops[..|ops| - 1]);
      Then(r, Step(r.finder, ops[|ops| - 1]))
  }

  // ---- Windows ------------------------------------------------------------------------

  ghost predicate StashedAt(start: int, f: Frame) { FrameAt(start, f) && !f.kind.KeyFrame? }

  ghost predicate StashIn(start: int, stash: seq<Frame>) {
    forall i {:trigger StashedAt(start, stash[i])} :: 0 <= i < |stash| ==> StashedAt(start, stash[i])
  }

  /** No frame in the stash could be handed off. */
  ghost predicate Waiting(g: seq<Gop>, stash: seq<Frame>) {
    forall i {:trigger Decide(g, stash[i])} :: 0 <= i < |stash| ==> Decide(g, stash[i]) != HandOff
  }

  /** In the window, everything handed off so far is sound and no waiting frame could be handed off. */
  ghost predicate Good(start: int, m: Finder, history: seq<Frame>, reported: set<int>) {
    && Core(start, m.state, history, reported) && StashIn(start, m.stash) && Waiting(m.state.gop, m.stash)
  }

  ghost predicate OpIn(start: int, op: Op) {
    match op
    case Manage(f) => FrameAt(start, f)
    case Padding(at) => start <= at < start + WINDOW
    case Clear(_) => true
  }

  ghost function ReportedBy(op: Op): set<int> { if op.Padding? then {op.at} else {} }

  /** A frame that is not handed off only makes the finder forget old groups, */
  lemma GroupsAfter(base: SeqNum, s: State, f: Frame)
    requires Ordered(base, s.gop) && FrameIn(base, f) && Decide(s.gop, f) != HandOff
    ensures !f.kind.KeyFrame? && Managed(s, f).0.gop == Cleaned(s.gop, f.last)
  {
    if f.kind.KeyFrame? { KeyFrameDelivered(base, s.gop, f); }
  }

  /** None of the first n frames could be handed off. */
  ghost predicate NoneDeliverable(g: seq<Gop>, stash: seq<Frame>, n: nat) {
    forall j {:trigger Decide(g, stash[j])} :: 0 <= j < n <= |stash| ==> Decide(g, stash[j]) != HandOff
  }

  /** and leaves every waiting frame waiting. */
  lemma CleaningKeepsAll(start: int, g: seq<Gop>, x: SeqNum, stash: seq<Frame>, n: nat)
    requires Ordered(Low(start), g) && In(Low(start), x) && StashIn(start, stash) && n <= |stash|
    requires NoneDeliverable(g, stash, n)
    ensures NoneDeliverable(Cleaned(g, x), stash, n)
  {
    forall j | 0 <= j < n ensures Decide(Cleaned(g, x), stash[j]) != HandOff {
      assert StashedAt(start, stash[j]) && Decide(g, stash[j]) != HandOff;
      CleaningDeliversNothing(Low(start), g, x, stash[j]);
    }
  }

  lemma WithoutIn(start: int, stash: seq<Frame>, i: nat)
    requires i < |stash| && StashIn(start, stash)
    ensures StashIn(start, Without(stash, i)) && StashedAt(start, stash[i])
  {
    var rest := Without(stash, i);
    forall k | 0 <= k < |rest| ensures StashedAt(start, rest[k]) {
      assert rest[k] == stash[if k < i then k else k + 1];
      assert StashedAt(start, stash[if k < i then k else k + 1]);
    }
  }

  lemma WithoutWaits(g: seq<Gop>, stash: seq<Frame>, i: nat)
    requires i < |stash|
    ensures NoneDeliverable(g, stash, i) ==> NoneDeliverable(g, Without(stash, i), i)
    ensures Waiting(g, stash) ==> Waiting(g, Without(stash, i))
  {
    var rest := Without(stash, i);
    forall k | 0 <= k < |rest| ensures rest[k] == stash[if k < i then k else k + 1] { }
    if NoneDeliverable(g, stash, i) {
      forall k | 0 <= k < i ensures Decide(g, rest[k]) != HandOff { assert Decide(g, stash[k]) != HandOff; }
    }
    if Waiting(g, stash) {
      forall k | 0 <= k < |rest| ensures Decide(g, rest[k]) != HandOff {
        assert Decide(g, stash[if k < i then k else k + 1]) != HandOff;
      }
    }
  }

  /** A failed retry makes no earlier frame of the pass deliverable. */
  lemma PassKeepsWaiting(start: int, s: State, stash: seq<Frame>, i: nat, history: seq<Frame>, reported: set<int>)
    requires Core(start, s, history, reported) && StashIn(start, stash) && i < |stash|
    requires NoneDeliverable(s.gop, stash, i) && Decide(s.gop, stash[i]) != HandOff
    ensures NoneDeliverable(Managed(s, stash[i]).0.gop, stash, i + 1)
  {
    assert StashedAt(start, stash[i]);
    GroupsAfter(Low(start), s, stash[i]);
    NoneMore(f => Decide(s.gop, f) != HandOff, stash, i);
    CleaningKeepsAll(start, s.gop, stash[i].last, stash, i + 1);
  }

  /** What holds of the first i frames and of the next one holds of one more. */
  lemma NoneMore(P: Frame -> bool, stash: seq<Frame>, i: nat)
    requires i < |stash| && P(stash[i]) && forall j :: 0 <= j < i ==> P(stash[j])
    ensures forall j :: 0 <= j < i + 1 ==> P(stash[j])
  {
  }

  /** What a pass keeps; if it hands nothing off and no frame before i could be, nothing left could be. */
  ghost predicate PassOk(start: int, g: seq<Gop>, stash: seq<Frame>, i: nat, history: seq<Frame>, reported: set<int>,
                         r: Outcome)
  {
    && Core(start, r.finder.state, history + r.out, reported) && StashIn(start, r.finder.stash)
    && (r.out == [] && NoneDeliverable(g, stash, i) ==> Waiting(r.finder.state.gop, r.finder.stash))
  }

  lemma PassEnd(start: int, s: State, stash: seq<Frame>, history: seq<Frame>, reported: set<int>)
    requires Core(start, s, history, reported) && StashIn(start, stash)
    ensures PassOk(start, s.gop, stash, |stash|, history, reported, Outcome(Finder(s, stash), [], []))
  {
    assert history + [] == history;
    if NoneDeliverable(s.gop, stash, |stash|) {
      forall i | 0 <= i < |stash| ensures Decide(s.gop, stash[i]) != HandOff { }
    }
  }

  lemma {:induction false} PassGood(start: int, s: State, stash: seq<Frame>, i: nat, history: seq<Frame>,
                                    reported: set<int>)
    requires Core(start, s, history, reported) && StashIn(start, stash) && i <= |stash|
    ensures PassOk(start, s.gop, stash, i, history, reported, Pass(s, stash, i))
    decreases |stash| - i
  {
    if i == |stash| {
      PassEnd(start, s, stash, history, reported);
    } else {
      var (s', d, f) := Managed(s, stash[i]);
      var rest := Without(stash, i);
      WithoutIn(start, stash, i);
      ManagedCore(start, s, stash[i], history, reported);
      match d {
        case Stash =>
          PassGood(start, s', stash, i + 1, history, reported);
          PassOverOk(start, s, stash, i, history, reported, Pass(s', stash, i + 1));
        case HandOff =>
          PassGood(start, s', rest, i, history + [f], reported);
          HandOffOk(start, s, stash, i, history, reported, f, s'.gop, rest, Pass(s', rest, i));
        case Drop =>
          PassGood(start, s', rest, i, history, reported);
          DropOk(start, s, stash, i, history, reported, Pass(s', rest, i));
      }
    }
  }

  lemma PassOverOk(start: int, s: State, stash: seq<Frame>, i: nat, history: seq<Frame>, reported: set<int>, r: Outcome)
    requires Core(start, s, history, reported) && StashIn(start, stash) && i < |stash| &&
             Managed(s, stash[i]).1 == Stash
    requires PassOk(start, Managed(s, stash[i]).0.gop, stash, i + 1, history, reported, r)
    ensures PassOk(start, s.gop, stash, i, history, reported, r)
  {
    if NoneDeliverable(s.gop, stash, i) { PassKeepsWaiting(start, s, stash, i, history, reported); }
  }

  lemma HandOffOk(start: int, s: State, stash: seq<Frame>, i: nat, history: seq<Frame>, reported: set<int>, f: Frame,
                  g: seq<Gop>, rest: seq<Frame>, r: Outcome)
    requires PassOk(start, g, rest, i, history + [f], reported, r)
    ensures PassOk(start, s.gop, stash, i, history, reported, r.(out := [f] + r.out))
  {
    assert history + [f] + r.out == history + ([f] + r.out);
  }

  lemma DropOk(start: int, s: State, stash: seq<Frame>, i: nat, history: seq<Frame>, reported: set<int>, r: Outcome)
    requires Core(start, s, history, reported) && StashIn(start, stash) && i < |stash| && Managed(s, stash[i]).1 == Drop
    requires PassOk(start, Managed(s, stash[i]).0.gop, Without(stash, i), i, history, reported, r)
    ensures PassOk(start, s.gop, stash, i, history, reported, r.(lost := [Loss(stash[i], NoGroup)] + r.lost))
  {
    if NoneDeliverable(s.gop, stash, i) {
      PassKeepsWaiting(start, s, stash, i, history, reported);
      var g := Managed(s, stash[i]).0.gop;
      FewerDeliverable(g, stash, i);
      WithoutWaits(g, stash, i);
    }
  }

  lemma FewerDeliverable(g: seq<Gop>, stash: seq<Frame>, i: nat)
    requires i < |stash| && NoneDeliverable(g, stash, i + 1)
    ensures NoneDeliverable(g, stash, i)
  {
  }

  /** After the outcome the invariant holds, with what was handed off appended to the history. */
  ghost predicate LeadsTo(start: int, history: seq<Frame>, reported: set<int>, r: Outcome) {
    Good(start, r.finder, history + r.out, reported)
  }

  function Then(r: Outcome, t: Outcome): Outcome { Outcome(t.finder, r.out + t.out, r.lost + t.lost) }

  lemma ThenGood(start: int, history: seq<Frame>, reported: set<int>, r: Outcome, t: Outcome)
    requires LeadsTo(start, history + r.out, reported, t)
    ensures LeadsTo(start, history, reported, Then(r, t))
  {
    assert history + r.out + t.out == history + (r.out + t.out);
  }

  lemma PassDone(start: int, s: State, stash: seq<Frame>, history: seq<Frame>, reported: set<int>, r: Outcome)
    requires PassOk(start, s.gop, stash, 0, history, reported, r) && r.out == []
    ensures LeadsTo(start, history, reported, r)
  {
    assert NoneDeliverable(s.gop, stash, 0);
  }

  /** Retrying ends at a fixpoint, and everything it hands off is sound. */
  lemma {:induction false} RetriedGood(start: int, s: State, stash: seq<Frame>, history: seq<Frame>, reported: set<int>)
    requires Core(start, s, history, reported) && StashIn(start, stash)
    ensures LeadsTo(start, history, reported, Retried(s, stash))
    decreases |stash|
  {
    PassGood(start, s, stash, 0, history, reported);
    var r := Pass(s, stash, 0);
    if r.out == [] {
      PassDone(start, s, stash, history, reported, r);
    } else {
      RetriedGood(start, r.finder.state, r.finder.stash, history + r.out, reported);
      ThenGood(start, history, reported, r, Retried(r.finder.state, r.finder.stash));
    }
  }

  lemma {:induction false} SoundWithMore(history: seq<Frame>, reported: set<int>, n: int)
    requires SoundHistory(history, reported)
    ensures SoundHistory(history, reported + {n})
  {
    forall j | 0 <= j < |history| ensures SoundHandOff(history[..j], history[j], reported + {n}) {
      assert SoundHandOff(history[..j], history[j], reported);
      if history[j].kind.DeltaFrame? {
        var i :| 0 <= i < j && Refers(history[j], history[..j][i], reported);
        assert Refers(history[j], history[..j][i], reported + {n});
      }
    }
  }

  /** Reporting one more number as padding keeps the invariant. */
  lemma MorePaddingCore(start: int, s: State, history: seq<Frame>, reported: set<int>, at: int)
    requires Core(start, s, history, reported) && start <= at < start + WINDOW
    ensures Core(start, WithPadding(s, Low(at)), history, reported + {at})
  {
    FullLow(start, at);
    SoundWithMore(history, reported, at);
    PaddedCore(start, s.(padding := MorePadding(s.padding, Low(at))), history, reported + {at}, Low(at));
  }

  lemma ManagingGood(start: int, m: Finder, f: Frame, history: seq<Frame>, reported: set<int>)
    requires Good(start, m, history, reported) && FrameAt(start, f)
    ensures LeadsTo(start, history, reported, Managing(m, f))
  {
    var (s, d, g) := Managed(m.state, f);
    ManagedCore(start, m.state, f, history, reported);
    if d == HandOff {
      RetriedGood(start, s, m.stash, history + [g], reported);
      ThenGood(start, history, reported, Outcome(m, [g], []), Retried(s, m.stash));
    } else {
      StillWaiting(start, m, f, history, reported);
      NothingHandedOff(start, history, reported, Managing(m, f));
    }
  }

  lemma NothingHandedOff(start: int, history: seq<Frame>, reported: set<int>, r: Outcome)
    requires r.out == [] && Good(start, r.finder, history, reported)
    ensures LeadsTo(start, history, reported, r)
  {
    assert history + r.out == history;
  }

  /** A frame that is not handed off leaves all others waiting, and waits itself if it is stashed. */
  lemma StillWaiting(start: int, m: Finder, f: Frame, history: seq<Frame>, reported: set<int>)
    requires Good(start, m, history, reported) && FrameAt(start, f) && Decide(m.state.gop, f) != HandOff
    ensures var g := Managed(m.state, f).0.gop;
            && Waiting(g, m.stash) && Waiting(g, [f] + Trimmed(m.stash)) && StashIn(start, [f] + Trimmed(m.stash))
  {
    GroupsAfter(Low(start), m.state, f);
    CleaningDeliversNothing(Low(start), m.state.gop, f.last, f);
    assert NoneDeliverable(m.state.gop, m.stash, |m.stash|);
    CleaningKeepsAll(start, m.state.gop, f.last, m.stash, |m.stash|);
    PushedWaits(start, Cleaned(m.state.gop, f.last), m.stash, f);
  }

  lemma PushedWaits(start: int, g: seq<Gop>, stash: seq<Frame>, f: Frame)
    requires StashIn(start, stash) && NoneDeliverable(g, stash, |stash|)
    requires StashedAt(start, f) && Decide(g, f) != HandOff
    ensures Waiting(g, stash) && Waiting(g, [f] + Trimmed(stash)) && StashIn(start, [f] + Trimmed(stash))
  {
    PushedAll(x => Decide(g, x) != HandOff, stash, f);
    PushedAll(x => StashedAt(start, x), stash, f);
  }

  /** What holds of the waiting frames and of a new one holds of the stash with the new one. */
  lemma PushedAll(P: Frame -> bool, stash: seq<Frame>, f: Frame)
    requires P(f) && forall j :: 0 <= j < |stash| ==> P(stash[j])
    ensures var all := [f] + Trimmed(stash); forall j :: 0 <= j < |all| ==> P(all[j])
  {
    var all := [f] + Trimmed(stash);
    forall j | 0 <= j < |all| ensures P(all[j]) {
      if j > 0 { assert all[j] == stash[j - 1]; }
    }
  }

  lemma {:induction false} KeptGood(start: int, g: seq<Gop>, stash: seq<Frame>, c: SeqNum, i: nat)
    requires StashIn(start, stash) && Waiting(g, stash) && i <= |stash|
    ensures StashIn(start, Kept(stash, c, i).finder.stash) && Waiting(g, Kept(stash, c, i).finder.stash)
    decreases |stash| - i
  {
    if i < |stash| {
      if AheadOf(c, stash[i].first) {
        WithoutIn(start, stash, i);
        WithoutWaits(g, stash, i);
        KeptGood(start, g, Without(stash, i), c, i);
      } else {
        KeptGood(start, g, stash, c, i + 1);
      }
    }
  }

  /** Every operation whose numbers lie in the window keeps the invariant. */
  lemma StepGood(start: int, m: Finder, op: Op, history: seq<Frame>, reported: set<int>)
    requires Good(start, m, history, reported) && OpIn(start, op)
    ensures LeadsTo(start, history, reported + ReportedBy(op), Step(m, op))
  {
    match op {
      case Manage(f) =>
        ManagingGood(start, m, f, history, reported);
        assert reported + {} == reported;
      case Padding(at) =>
        MorePaddingCore(start, m.state, history, reported, at);
        RetriedGood(start, WithPadding(m.state, Low(at)), m.stash, history, reported + {at});
      case Clear(c) =>
        KeptGood(start, m.state.gop, m.stash, c, 0);
        assert reported + {} == reported;
        NothingHandedOff(start, history, reported, Clearing(m, c));
    }
  }

  // ---- Windows that move on ---------------------------------------------------------------

  /** The number x lies in both windows, as the same unbounded number. */
  ghost predicate SameIn(a: int, b: int, x: SeqNum) { In(Low(b), x) && Full(a, x) == Full(b, x) }

  /** All live numbers of the finder lie in the window that starts at b as in the one that starts at a. */
  ghost predicate Moves(a: int, b: int, m: Finder) {
    && (m.state.unwrapper.last.Some? ==>
        m.state.unwrapper.last.value < 65536 && SameIn(a, b, m.state.unwrapper.last.value))
    && (forall i :: 0 <= i < |m.state.gop| ==>
          SameIn(a, b, m.state.gop[i].key) && SameIn(a, b, m.state.gop[i].pic) && SameIn(a, b, m.state.gop[i].pad))
    && (forall p :: p in m.state.padding ==> SameIn(a, b, p))
    && (forall i :: 0 <= i < |m.stash| ==> SameIn(a, b, Prev(m.stash[i].first)) && SameIn(a, b, m.stash[i].last))
  }

  lemma MoveGood(a: int, b: int, m: Finder, history: seq<Frame>, reported: set<int>)
    requires Good(a, m, history, reported) && Moves(a, b, m)
    ensures Good(b, m, history, reported)
  {
    assert Ordered(Low(b), m.state.gop);
    forall i | 0 <= i < |m.stash| ensures StashedAt(b, m.stash[i]) { assert StashedAt(a, m.stash[i]); }
    forall e | e in m.state.gop ensures GopDelivered(b, e, m.state.unwrapper, history, reported) {
      assert GopDelivered(a, e, m.state.unwrapper, history, reported);
      var i :| 0 <= i < |history| && history[i].last == e.pic && history[i].id == m.state.unwrapper.Peek(M, e.pic) &&
               history[i].at == Full(a, e.pic);
      assert history[i].at == Full(b, e.pic);
    }
  }

  /** There is a window for every operation of the run, which holds its numbers and the live numbers of the
      finder at that time. */
  ghost predicate StaysLive(ops: seq<Op>, starts: seq<int>) {
    && |starts| == |ops| + 1
    && forall k :: 0 <= k < |ops| ==>
                     Moves(starts[k], starts[k + 1], After(ops[..k]).finder) && OpIn(starts[k + 1], ops[k])
  }

  /** The numbers reported as padding by a run. */
  ghost function Reported(ops: seq<Op>): set<int> {
    if ops == [] then {} else Reported(ops[..|ops| - 1]) + ReportedBy(ops[|ops| - 1])
  }

  /** Over every run that stays live: every frame handed off is sound, and no waiting frame could be. */
  lemma {:induction false} RunGood(ops: seq<Op>, starts: seq<int>)
    requires StaysLive(ops, starts)
    ensures var r := After(ops); Good(starts[|ops|], r.finder, r.out, Reported(ops))
  {
    if ops == [] {
      assert Good(starts[0], EMPTY, [], {});
    } else {
      var l := |ops| - 1;
      var before := ops[..l];
      LivePrefix(ops, starts);
      RunGood(before, starts[..l + 1]);
      var r := After(before);
      assert ops[..l] == before && Moves(starts[l], starts[l + 1], r.finder) && OpIn(starts[l + 1], ops[l]);
      MoveGood(starts[l], starts[l + 1], r.finder, r.out, Reported(before));
      StepGood(starts[l + 1], r.finder, ops[l], r.out, Reported(before));
    }
  }

  lemma LivePrefix(ops: seq<Op>, starts: seq<int>)
    requires StaysLive(ops, starts) && ops != []
    ensures StaysLive(ops[..|ops| - 1], starts[..|ops|])
  {
    var l := |ops| - 1;
    forall k | 0 <= k < l
      ensures Moves(starts[k], starts[k + 1], After(ops[..l][..k]).finder) && OpIn(starts[k + 1], ops[k])
    {
      assert ops[..l][..k] == ops[..k];
    }
  }
}
