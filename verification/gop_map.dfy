/** Groups of pictures ordered by the sequence number of their key frame, oldest first, and the
    decision they imply for a frame. */
module GopMap {
  import opened SeqNums
  import opened FrameTypes

  /** A complete frame: its packet range and type, and the id and references it is given. The tag
      stands for the object's identity, and `at` for the sender's unbounded number of its last packet, of which
      `last` has the low 16 bits; the finder reads neither. */
  datatype Frame = Frame(tag: nat, at: int, first: SeqNum, last: SeqNum, kind: FrameType, id: int, refs: seq<int>)

  /** For the group that starts with the key frame ending at `key`: the last packet of its last
      complete frame, and the same advanced over continuous padding. */
  datatype Gop = Gop(key: SeqNum, pic: SeqNum, pad: SeqNum)

  datatype Decision = Stash | HandOff | Drop

  const MAX_GOP_AGE: nat := 100
  const MAX_PADDING_AGE: nat := 100

  // ---- Ordered lookups --------------------------------------------------------

  /** Position of the first key that is not older than x. */
  function LowerBound(g: seq<Gop>, x: SeqNum, i: nat := 0): (r: nat)
    requires i <= |g|
    ensures i <= r <= |g| && (r < |g| ==> !AheadOf(x, g[r].key))
    ensures forall j :: i <= j < r ==> AheadOf(x, g[j].key)
    decreases |g| - i
  {
    if i < |g| && AheadOf(x, g[i].key) then LowerBound(g, x, i + 1) else i
  }

  /** Position of the first key that is newer than x. */
  function UpperBound(g: seq<Gop>, x: SeqNum, i: nat := 0): (r: nat)
    requires i <= |g|
    ensures i <= r <= |g| && (r < |g| ==> AheadOf(g[r].key, x))
    ensures forall j :: i <= j < r ==> !AheadOf(g[j].key, x)
    decreases |g| - i
  {
    if i < |g| && !AheadOf(g[i].key, x) then UpperBound(g, x, i + 1) else i
  }

  /** Adds a group for a key frame, unless there is one already. */
  function Inserted(g: seq<Gop>, last: SeqNum): seq<Gop> {
    var i := LowerBound(g, last);
    if i < |g| && g[i].key == last then g else g[..i] + [Gop(last, last, last)] + g[i..]
  }

  /** How many groups older than x are forgotten: all of them, but never the last group. */
  function Stale(g: seq<Gop>, x: SeqNum): nat {
    var i := LowerBound(g, x);
    if i < |g| then i else if |g| > 0 then |g| - 1 else 0
  }

  function Cleaned(g: seq<Gop>, last: SeqNum): seq<Gop> { g[Stale(g, Minus(last, MAX_GOP_AGE))..] }

  function Started(g: seq<Gop>, f: Frame): seq<Gop> {
    if f.kind.KeyFrame? then Inserted(g, f.last) else g
  }

  /** What becomes of a frame, given the groups of pictures known so far. */
  function Decide(g: seq<Gop>, f: Frame): Decision {
    var g1 := Started(g, f);
    if g1 == [] then Stash
    else
      var g2 := Cleaned(g1, f.last);
      var i := UpperBound(g2, f.last);
      if i == 0 then Drop
      else if f.kind.DeltaFrame? && g2[i - 1].pad != Prev(f.first) then Stash
      else HandOff
  }

  // ---- Half-range windows -----------------------------------------------------

  /** Width of a window in which all order comparisons, also those reaching 100 back, are sound. */
  const WINDOW: nat := 32668

  predicate In(base: SeqNum, s: SeqNum) { ForwardDiff(base, s) < WINDOW }

  predicate FrameIn(base: SeqNum, f: Frame) {
    && In(base, Prev(f.first)) && In(base, f.last)
    && ForwardDiff(base, Prev(f.first)) < ForwardDiff(base, f.last)
  }

  predicate GopIn(base: SeqNum, e: Gop) {
    In(base, e.key) && In(base, e.pic) && In(base, e.pad) && ForwardDiff(base, e.pic) <= ForwardDiff(base, e.pad)
  }

  ghost predicate GopsIn(base: SeqNum, g: seq<Gop>) {
    forall i :: 0 <= i < |g| ==> GopIn(base, g[i])
  }

  ghost predicate Sorted(base: SeqNum, g: seq<Gop>) {
    forall i, j :: 0 <= i < j < |g| ==> ForwardDiff(base, g[i].key) < ForwardDiff(base, g[j].key)
  }

  ghost predicate Ordered(base: SeqNum, g: seq<Gop>) { GopsIn(base, g) && Sorted(base, g) }

  lemma OrderInWindow(base: SeqNum, a: SeqNum, b: SeqNum)
    requires In(base, a) && In(base, b)
    ensures AheadOf(a, b) <==> ForwardDiff(base, a) > ForwardDiff(base, b)
    ensures AheadOf(Minus(a, 100), b) <==> ForwardDiff(base, a) > ForwardDiff(base, b) + 100
  {
  }

  /** In a window, the upper bound of x separates the keys at or before x from those after it, */
  lemma UpperSplits(base: SeqNum, g: seq<Gop>, x: SeqNum, j: nat)
    requires Ordered(base, g) && In(base, x) && j < |g|
    ensures j < UpperBound(g, x) <==> ForwardDiff(base, g[j].key) <= ForwardDiff(base, x)
  {
    var r := UpperBound(g, x);
    OrderInWindow(base, g[j].key, x);
    if r < |g| { OrderInWindow(base, g[r].key, x); }
  }

  /** and the lower bound of x - 100 those more than 100 before x from the others. */
  lemma LowerSplits(base: SeqNum, g: seq<Gop>, x: SeqNum, j: nat)
    requires Ordered(base, g) && In(base, x) && j < |g|
    ensures j < LowerBound(g, Minus(x, 100)) <==> ForwardDiff(base, g[j].key) + 100 < ForwardDiff(base, x)
  {
    var r := LowerBound(g, Minus(x, 100));
    OrderInWindow(base, x, g[j].key);
    if r < |g| { OrderInWindow(base, x, g[r].key); }
  }

  function Less(a: nat, k: nat): nat { if a >= k then a - k else 0 }

  lemma SuffixOrdered(base: SeqNum, g: seq<Gop>, k: nat)
    requires Ordered(base, g) && k <= |g|
    ensures Ordered(base, g[k..])
  {
    var h := g[k..];
    assert forall i :: 0 <= i < |h| ==> h[i] == g[k + i];
  }

  /** Forgetting the k oldest groups shifts both lookups by k. */
  lemma UpperOfSuffix(base: SeqNum, g: seq<Gop>, k: nat, x: SeqNum)
    requires Ordered(base, g) && k <= |g| && In(base, x)
    ensures UpperBound(g[k..], x) == Less(UpperBound(g, x), k)
  {
    var h, r, t := g[k..], UpperBound(g[k..], x), Less(UpperBound(g, x), k);
    SuffixOrdered(base, g, k);
    if r < t {
      UpperSplits(base, h, x, r);
    } else if t < r {
      UpperSplits(base, h, x, t);
      UpperSplits(base, g, x, k + t);
    }
  }

  lemma LowerOfSuffix(base: SeqNum, g: seq<Gop>, k: nat, x: SeqNum)
    requires Ordered(base, g) && k <= |g| && In(base, x)
    ensures LowerBound(g[k..], Minus(x, 100)) == Less(LowerBound(g, Minus(x, 100)), k)
  {
    var h, r, t := g[k..], LowerBound(g[k..], Minus(x, 100)), Less(LowerBound(g, Minus(x, 100)), k);
    SuffixOrdered(base, g, k);
    if r < t {
      LowerSplits(base, h, x, r);
    } else if t < r {
      LowerSplits(base, h, x, t);
      LowerSplits(base, g, x, k + t);
    }
  }

  /** The group a frame belongs to, after cleaning: none, or the one before the upper bound. */
  lemma CleanedLookup(base: SeqNum, g: seq<Gop>, x: SeqNum)
    requires Ordered(base, g) && g != [] && In(base, x)
    ensures var k := Stale(g, Minus(x, 100));
            var g2 := Cleaned(g, x);
            var u := UpperBound(g, x);
            && k < |g| && UpperBound(g2, x) == Less(u, k)
            && (u > k ==> g2[Less(u, k) - 1] == g[u - 1])
  {
    UpperOfSuffix(base, g, Stale(g, Minus(x, 100)), x);
  }

  ghost predicate FollowsGroup(g: seq<Gop>, f: Frame) {
    var u := UpperBound(g, f.last);
    && g != [] && u > Stale(g, Minus(f.last, 100))
    && (f.kind.DeltaFrame? ==> g[u - 1].pad == Prev(f.first))
  }

  /** A frame without a new group is handed off iff its group survives cleaning and, for a delta
      frame, its first packet directly follows what that group has. */
  lemma HandedOffIff(base: SeqNum, g: seq<Gop>, f: Frame)
    requires Ordered(base, g) && FrameIn(base, f) && !f.kind.KeyFrame?
    ensures Decide(g, f) == HandOff <==> FollowsGroup(g, f)
  {
    if g != [] { CleanedLookup(base, g, f.last); }
  }

  lemma StaleOfSuffix(base: SeqNum, g: seq<Gop>, k: nat, x: SeqNum)
    requires Ordered(base, g) && k < |g| && In(base, x)
    ensures Stale(g[k..], Minus(x, 100)) == Less(Stale(g, Minus(x, 100)), k)
  {
    LowerOfSuffix(base, g, k, x);
  }

  /** Forgetting old groups never makes a waiting frame deliverable. */
  lemma CleaningDeliversNothing(base: SeqNum, g: seq<Gop>, x: SeqNum, f: Frame)
    requires Ordered(base, g) && In(base, x) && FrameIn(base, f) && !f.kind.KeyFrame?
    requires Decide(g, f) != HandOff
    ensures Decide(Cleaned(g, x), f) != HandOff
  {
    var k := Stale(g, Minus(x, 100));
    SuffixOrdered(base, g, k);
    HandedOffIff(base, g, f);
    HandedOffIff(base, g[k..], f);
    if g != [] && FollowsGroup(g[k..], f) { SuffixFollows(base, g, k, f); }
  }

  /** A frame that follows its group among the newer groups does so among all of them. */
  lemma SuffixFollows(base: SeqNum, g: seq<Gop>, k: nat, f: Frame)
    requires Ordered(base, g) && k < |g| && FrameIn(base, f) && FollowsGroup(g[k..], f)
    ensures FollowsGroup(g, f)
  {
    UpperOfSuffix(base, g, k, f.last);
    StaleOfSuffix(base, g, k, f.last);
  }

  lemma LowerPosition(base: SeqNum, g: seq<Gop>, x: SeqNum, j: nat)
    requires Ordered(base, g) && In(base, x) && j < |g|
    ensures j < LowerBound(g, x) <==> ForwardDiff(base, g[j].key) < ForwardDiff(base, x)
  {
    var r := LowerBound(g, x);
    OrderInWindow(base, x, g[j].key);
    if r < |g| { OrderInWindow(base, x, g[r].key); }
  }

  lemma OrderedInsert(base: SeqNum, g: seq<Gop>, i: nat, e: Gop)
    requires Ordered(base, g) && i <= |g| && GopIn(base, e)
    requires forall j :: 0 <= j < i ==> ForwardDiff(base, g[j].key) < ForwardDiff(base, e.key)
    requires forall j :: i <= j < |g| ==> ForwardDiff(base, g[j].key) > ForwardDiff(base, e.key)
    ensures Ordered(base, g[..i] + [e] + g[i..])
  {
    var h := g[..i] + [e] + g[i..];
    assert forall j :: 0 <= j < |h| ==> h[j] == if j < i then g[j] else if j == i then e else g[j - 1];
  }

  /** Adding a key frame's group keeps the order, and the group is the frame's own. */
  lemma InsertOrdered(base: SeqNum, g: seq<Gop>, x: SeqNum)
    requires Ordered(base, g) && In(base, x)
    ensures var g1 := Inserted(g, x);
            var i := LowerBound(g, x);
            Ordered(base, g1) && i < |g1| && g1[i].key == x
  {
    var i := LowerBound(g, x);
    forall j | 0 <= j < |g|
      ensures j < i <==> ForwardDiff(base, g[j].key) < ForwardDiff(base, x)
    {
      LowerPosition(base, g, x, j);
    }
    if !(i < |g| && g[i].key == x) {
      assert forall j :: i <= j < |g| ==> ForwardDiff(base, g[j].key) > ForwardDiff(base, x) by {
        if i < |g| { assert ForwardDiff(base, g[i].key) != ForwardDiff(base, x); }
      }
      OrderedInsert(base, g, i, Gop(x, x, x));
    }
  }

  /** In a window, exactly the groups are forgotten whose key lies more than 100 numbers before x, but not the last
      group. */
  lemma CleanedIs(base: SeqNum, g: seq<Gop>, x: SeqNum, j: nat)
    requires Ordered(base, g) && In(base, x) && j < |g|
    ensures Stale(g, Minus(x, MAX_GOP_AGE)) <= j <==>
            ForwardDiff(base, x) <= ForwardDiff(base, g[j].key) + 100 || j == |g| - 1
    ensures Cleaned(g, x) == g[Stale(g, Minus(x, MAX_GOP_AGE))..]
  {
    LowerSplits(base, g, x, j);
  }

  lemma InsertedMembers(g: seq<Gop>, x: SeqNum)
    ensures forall e :: e in Inserted(g, x) ==> e in g || e == Gop(x, x, x)
  {
  }

  /** A group that starts at x is the one found for x, also after cleaning. */
  lemma OwnGroup(base: SeqNum, g: seq<Gop>, x: SeqNum, i: nat)
    requires Ordered(base, g) && In(base, x) && i < |g| && g[i].key == x
    ensures UpperBound(g, x) == i + 1 && Stale(g, Minus(x, 100)) <= i
  {
    UpperSplits(base, g, x, i);
    LowerSplits(base, g, x, i);
    if i + 1 < |g| { UpperSplits(base, g, x, i + 1); }
  }

  /** A key frame is always handed off, and it finds its own group. */
  lemma KeyFrameDelivered(base: SeqNum, g: seq<Gop>, f: Frame)
    requires Ordered(base, g) && FrameIn(base, f) && f.kind.KeyFrame?
    ensures Decide(g, f) == HandOff
    ensures var g2 := Cleaned(Inserted(g, f.last), f.last);
            var i := UpperBound(g2, f.last);
            i > 0 && g2[i - 1].key == f.last
  {
    InsertOrdered(base, g, f.last);
    var g1 := Inserted(g, f.last);
    var i := LowerBound(g, f.last);
    OwnGroup(base, g1, f.last, i);
    CleanedLookup(base, g1, f.last);
  }
}
