/** A stream without loss: it stays live for ever, across every wrap of its numbers, and each of its frames is
    handed off at once with a reference to the one before. */
module PerfectStream {
  import opened Options
  import opened SeqNums
  import opened FrameTypes
  import opened Unwrapping
  import opened GopMap
  import opened SeqNumState
  import opened SeqNumMachine

  /** The i-th frame has the one packet i; the first frame is a key frame. */
  function Nth(i: nat): Frame {
    Frame(i, i, Low(i), Low(i), if i == 0 then KeyFrame else DeltaFrame, 0, [])
  }

  function Stream(n: nat): (ops: seq<Op>)
    ensures |ops| == n
  { if n == 0 then [] else Stream(n - 1) + [Manage(Nth(n - 1))] }

  /** The finder after the frames up to i: one group, not more than 10000 numbers old, that reaches up to i. */
  ghost predicate UpTo(m: Finder, i: nat, key: int) {
    && 0 <= key <= i <= key + REKEY_DISTANCE && m.stash == []
    && m.state == State([Gop(Low(key), Low(i), Low(i))], {}, Unwrapper(Some(Low(i)), i))
  }

  lemma NotAhead(key: int, i: int)
    requires key <= i <= key + REKEY_DISTANCE + 1
    ensures !AheadOf(Low(key), Low(i)) && ForwardDiff(Low(key), Low(i)) == i - key
  {
    FullLow(key, i);
  }

  /** The i-th frame as it is handed off. */
  function HandedOff(i: nat): Frame { Nth(i).(id := i, refs := if i == 0 then [] else [i - 1]) }

  /** The outcome of the i-th frame. */
  ghost predicate Takes(r: Outcome, i: nat, key: int) { UpTo(r.finder, i, key) && r.out == [HandedOff(i)] }

  lemma NothingWaits(s: State)
    ensures Retried(s, []) == Outcome(Finder(s, []), [], [])
  {
  }

  lemma TakenFrame(m: Finder, i: nat, s: State, key: int)
    requires m.stash == [] && Managed(m.state, Nth(i)) == (s, HandOff, HandedOff(i))
    requires 0 <= key <= i <= key + REKEY_DISTANCE
    requires s == State([Gop(Low(key), Low(i), Low(i))], {}, Unwrapper(Some(Low(i)), i))
    ensures Takes(Managing(m, Nth(i)), i, key)
  {
    NothingWaits(s);
  }

  lemma FirstManaged()
    ensures Managed(EMPTY.state, Nth(0)) == (State([Gop(0, 0, 0)], {}, Unwrapper(Some(0), 0)), HandOff, HandedOff(0))
  {
    StartsFirst(Nth(0), 0, []);
    ManagedJoins(EMPTY.state, Nth(0), [Gop(0, 0, 0)]);
    FirstJoined();
  }

  /** A key frame starts the first group. */
  lemma StartsFirst(f: Frame, x: SeqNum, none: seq<Gop>)
    requires f.kind.KeyFrame? && f.last == x && none == []
    ensures var g := [Gop(x, x, x)]; Started(none, f) == g && Cleaned(g, x) == g && UpperBound(g, x) == 1
    ensures Decide(none, f) == HandOff
  {
    var g := [Gop(x, x, x)];
    assert LowerBound(none, x) == 0;
    assert Started(none, f) == g;
    assert Cleaned(g, x) == g;
    assert UpperBound(g, x) == 1;
  }

  lemma FirstJoined()
    ensures Joined(State([Gop(0, 0, 0)], {}, FRESH), 0, Nth(0)) ==
            (State([Gop(0, 0, 0)], {}, Unwrapper(Some(0), 0)), HandedOff(0))
  {
    var g := [Gop(0, 0, 0)];
    assert Extended(g, 0, 0) == g;
    assert UpperBound(g, 0) == 1;
    assert PadEnd({}, 0) == 0 && PadRest({}, 0) == {};
    assert Padded(g, {}, 0) == g;
  }

  lemma FirstFrame()
    ensures Takes(Managing(EMPTY, Nth(0)), 0, 0)
  {
    FirstManaged();
    TakenFrame(EMPTY, 0, State([Gop(0, 0, 0)], {}, Unwrapper(Some(0), 0)), 0);
  }

  lemma NextManaged(m: Finder, i: nat, key: int, key': int)
    requires UpTo(m, i, key) && key' == if i + 1 - key > REKEY_DISTANCE then i + 1 else key
    ensures var x := Low(i + 1);
            Managed(m.state, Nth(i + 1)) ==
            (State([Gop(Low(key'), x, x)], {}, Unwrapper(Some(x), i + 1)), HandOff, HandedOff(i + 1))
  {
    NextDecided(m, i, key);
    ManagedJoins(m.state, Nth(i + 1), m.state.gop);
    NextJoined(m, i, key, key');
  }

  lemma ManagedJoins(s: State, f: Frame, g: seq<Gop>)
    requires Started(s.gop, f) == g != [] && Cleaned(g, f.last) == g
    requires UpperBound(g, f.last) == 1 && Decide(s.gop, f) == HandOff
    ensures var (t, f') := Joined(s.(gop := g), 0, f); Managed(s, f) == (t, HandOff, f')
  {
  }

  lemma NextJoined(m: Finder, i: nat, key: int, key': int)
    requires UpTo(m, i, key) && key' == if i + 1 - key > REKEY_DISTANCE then i + 1 else key
    ensures var x := Low(i + 1);
            Joined(m.state, 0, Nth(i + 1)) ==
            (State([Gop(Low(key'), x, x)], {}, Unwrapper(Some(x), i + 1)), HandedOff(i + 1))
  {
    var x, u := Low(i + 1), m.state.unwrapper;
    NotAhead(i, i + 1);
    assert u.Moved(M, Low(i)) == u && u.Moved(M, x) == Unwrapper(Some(x), i + 1);
    NextPadded(i, key);
    assert Joined(m.state, 0, Nth(i + 1)).1.refs == HandedOff(i + 1).refs;
  }

  lemma NextDecided(m: Finder, i: nat, key: int)
    requires UpTo(m, i, key)
    ensures var g, x := m.state.gop, Low(i + 1);
            Cleaned(g, x) == g && UpperBound(g, x) == 1 && Decide(g, Nth(i + 1)) == HandOff
  {
    NotAhead(key, i + 1);
    var g, x := m.state.gop, Low(i + 1);
    assert Cleaned(g, x) == g;
    assert UpperBound(g, x) == 1;
    assert Prev(x) == Low(i);
  }

  lemma NextPadded(i: nat, key: int)
    requires 0 <= key <= i <= key + REKEY_DISTANCE
    ensures var x := Low(i + 1);
            var g := Extended([Gop(Low(key), Low(i), Low(i))], 0, x);
            && Padded(g, {}, x) == [Gop(Low(if i + 1 - key > REKEY_DISTANCE then i + 1 else key), x, x)]
            && PaddingLeft(g, {}, x) == {}
  {
    var x := Low(i + 1);
    NotAhead(key, i + 1);
    NotAhead(i, i + 1);
    var g := [Gop(Low(key), x, x)];
    assert Extended([Gop(Low(key), Low(i), Low(i))], 0, x) == g;
    assert UpperBound(g, x) == 1;
    assert PadEnd({}, x) == x && PadRest({}, x) == {};
  }

  /** The next frame is handed off, and the group reaches up to it. */
  lemma NextFrame(m: Finder, i: nat, key: int, key': int)
    requires UpTo(m, i, key) && key' == if i + 1 - key > REKEY_DISTANCE then i + 1 else key
    ensures Takes(Managing(m, Nth(i + 1)), i + 1, key')
  {
    NextManaged(m, i, key, key');
    TakenFrame(m, i + 1, Managed(m.state, Nth(i + 1)).0, key');
  }

  ghost predicate AllOut(out: seq<Frame>, n: nat) { |out| == n && forall i :: 0 <= i < n ==> out[i] == HandedOff(i) }

  /** After n frames. */
  ghost predicate InStep(r: Outcome, n: nat, key: int) {
    AllOut(r.out, n) && if n == 0 then r.finder == EMPTY else UpTo(r.finder, n - 1, key)
  }

  lemma StreamStep(r: Outcome, n: nat, key: int) returns (key': int)
    requires InStep(r, n, key)
    ensures InStep(Then(r, Managing(r.finder, Nth(n))), n + 1, key')
  {
    if n == 0 {
      key' := 0;
      FirstFrame();
    } else {
      key' := if n - key > REKEY_DISTANCE then n else key;
      NextFrame(r.finder, n - 1, key, key');
    }
    OutGrows(r, Managing(r.finder, Nth(n)), n, key');
  }

  lemma OutGrows(r: Outcome, t: Outcome, n: nat, key: int)
    requires AllOut(r.out, n) && Takes(t, n, key)
    ensures InStep(Then(r, t), n + 1, key)
  {
  }

  lemma StreamNext(n: nat)
    ensures After(Stream(n + 1)) == Then(After(Stream(n)), Managing(After(Stream(n)).finder, Nth(n)))
  {
    assert Stream(n + 1)[..n] == Stream(n);
  }

  lemma {:induction false} StreamState(n: nat) returns (key: int)
    ensures InStep(After(Stream(n)), n, key)
  {
    key := 0;
    if n > 0 {
      key := StreamState(n - 1);
      StreamNext(n - 1);
      key := StreamStep(After(Stream(n - 1)), n - 1, key);
    }
  }

  /** The window for the k-th frame. */
  function WindowAt(k: nat): int { k - 10003 }

  lemma SameNumber(k: nat, n: int)
    requires k - 10001 <= n < k
    ensures SameIn(WindowAt(k), WindowAt(k + 1), Low(n))
  {
    FullLow(WindowAt(k), n);
    FullLow(WindowAt(k + 1), n);
  }

  lemma FrameFits(k: nat)
    ensures FrameAt(WindowAt(k + 1), Nth(k))
  {
    FullLow(WindowAt(k + 1), k);
    FullLow(WindowAt(k + 1), k - 1);
    assert Prev(Low(k)) == Low(k - 1);
  }

  lemma {:induction false} StreamOp(n: nat, k: nat)
    requires k < n
    ensures Stream(n)[k] == Manage(Nth(k)) && Stream(n)[..k] == Stream(k)
  {
    if k < n - 1 {
      StreamOp(n - 1, k);
      assert Stream(n)[..k] == Stream(n - 1)[..k];
    } else {
      assert Stream(n)[..k] == Stream(n - 1);
    }
  }

  lemma WindowMoves(m: Finder, k: nat, key: int)
    requires if k == 0 then m == EMPTY else UpTo(m, k - 1, key)
    ensures Moves(WindowAt(k), WindowAt(k + 1), m)
  {
    if k > 0 {
      SameNumber(k, k - 1);
      SameNumber(k, key);
    }
  }

  function Windows(n: nat): seq<int> { seq(n + 1, k requires 0 <= k <= n => WindowAt(k)) }

  /** The stream stays live however long it is, and all its frames are handed off, each with the id of its
      number and a reference to the one before. */
  lemma StreamStaysLive(n: nat)
    ensures StaysLive(Stream(n), Windows(n)) && AllOut(After(Stream(n)).out, n)
  {
    var starts, ops := Windows(n), Stream(n);
    forall k | 0 <= k < n
      ensures Moves(starts[k], starts[k + 1], After(ops[..k]).finder) && OpIn(starts[k + 1], ops[k])
    {
      FitsAt(n, k);
    }
    var key := StreamState(n);
  }

  lemma FitsAt(n: nat, k: nat)
    requires k < n
    ensures Moves(WindowAt(k), WindowAt(k + 1), After(Stream(n)[..k]).finder) && OpIn(WindowAt(k + 1), Stream(n)[k])
  {
    StreamOp(n, k);
    FrameFits(k);
    var key := StreamState(k);
    WindowMoves(After(Stream(k)).finder, k, key);
  }
}
