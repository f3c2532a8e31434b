/** The record of sequence numbers skipped so far, which holds back H.264 delta frames. */
module MissingPackets {
  import opened SeqNums

  const MAX_PADDING_AGE: nat := 1000

  /** Numbers strictly between a and b, going forward. */
  ghost function Gap(a: SeqNum, b: SeqNum): set<SeqNum> {
    set m: SeqNum | 0 <= m < 65536 && 0 < ForwardDiff(a, m) < ForwardDiff(a, b)
  }

  /** Everything recorded missing lies in the 1000 numbers before the newest one. */
  ghost predicate InWindow(missing: set<SeqNum>, newest: SeqNum) {
    forall m :: m in missing ==> 1 <= ForwardDiff(m, newest) <= MAX_PADDING_AGE
  }

  /** The numbers recorded after seqNum shows up while `newest` was the newest one. */
  ghost function Updated(missing: set<SeqNum>, newest: SeqNum, seqNum: SeqNum): set<SeqNum> {
    if AheadOf(seqNum, newest) then
      var oldest := Minus(seqNum, MAX_PADDING_AGE);
      (set m | m in missing && !AheadOf(oldest, m)) +
      Gap(if AheadOf(oldest, newest) then oldest else newest, seqNum)
    else missing - {seqNum}
  }

  lemma GapStep(a: SeqNum, b: SeqNum)
    requires 0 < ForwardDiff(a, b) < 65535
    ensures Gap(a, Next(b)) == Gap(a, b) + {b}
  {
    assert ForwardDiff(a, Next(b)) == ForwardDiff(a, b) + 1;
    forall m: SeqNum
      ensures m in Gap(a, Next(b)) <==> m in Gap(a, b) + {b}
    {
      assert ForwardDiff(a, m) == ForwardDiff(a, b) <==> m == b;
    }
  }

  function NewestAfter(newest: SeqNum, seqNum: SeqNum): SeqNum {
    if AheadOf(seqNum, newest) then seqNum else newest
  }

  /** Clearing to `next` forgets what is missing at or before it, but for the newest such number. */
  ghost function Trimmed(missing: set<SeqNum>, next: SeqNum): set<SeqNum> {
    set m | m in missing && (AheadOf(m, next) ||
                             forall q :: q in missing && !AheadOf(q, next) ==> !AheadOf(q, m))
  }

  /** m lies fewer than 1000 numbers before seqNum, and after `newest`. */
  predicate SkippedBy(newest: SeqNum, seqNum: SeqNum, m: SeqNum) {
    1 <= ForwardDiff(m, seqNum) < MAX_PADDING_AGE && ForwardDiff(m, seqNum) < ForwardDiff(newest, seqNum)
  }

  /** What is missing afterwards: a number ahead of the newest makes exactly the numbers it skips missing, and forgets
      what is too old; any other number is missing no longer, and nothing else changes. */
  ghost predicate Recorded(missing: set<SeqNum>, newest: SeqNum, seqNum: SeqNum, after: set<SeqNum>) {
    if AheadOf(seqNum, newest) then
      forall m: SeqNum :: m in after <==>
                          || SkippedBy(newest, seqNum, m)
                          || (m in missing && !AheadOf(Minus(seqNum, MAX_PADDING_AGE), m))
    else
      forall m: SeqNum :: m in after <==> m in missing && m != seqNum
  }

  lemma UpdatedIs(missing: set<SeqNum>, newest: SeqNum, seqNum: SeqNum)
    ensures Recorded(missing, newest, seqNum, Updated(missing, newest, seqNum))
  {
  }

  /** What is missing, not seen, and not too old stays missing. */
  lemma UpdatedKeeps(missing: set<SeqNum>, newest: SeqNum, seqNum: SeqNum, m: SeqNum)
    requires m in missing && m != seqNum && ForwardDiff(m, NewestAfter(newest, seqNum)) <= MAX_PADDING_AGE
    ensures m in Updated(missing, newest, seqNum)
  {
    UpdatedIs(missing, newest, seqNum);
  }

  lemma TrimmedKeepsNewest(missing: set<SeqNum>, next: SeqNum, a: SeqNum, b: SeqNum)
    requires a in missing && b in Trimmed(missing, next) && !AheadOf(a, next) && !AheadOf(b, next)
    ensures a == b || (AheadOf(b, a) && a !in Trimmed(missing, next))
  {
  }

  /** Clearing keeps what is missing ahead of the clear point and, of the others, if there are any, one: so that a
      delta frame behind a gap that was cleared stays held back. */
  lemma TrimmedKeepsOne(missing: set<SeqNum>, next: SeqNum, newest: SeqNum, a: SeqNum) returns (b: SeqNum)
    requires InWindow(missing, newest) && a in missing
    ensures AheadOf(a, next) ==> a in Trimmed(missing, next)
    ensures !AheadOf(a, next) ==> b in Trimmed(missing, next) && !AheadOf(b, next) && !AheadOf(a, b)
  {
    b := a;
    if !AheadOf(a, next) { b := NewestUpTo(missing, next, newest, a); }
  }

  lemma {:induction false} NewestUpTo(missing: set<SeqNum>, next: SeqNum, newest: SeqNum, a: SeqNum)
    returns (b: SeqNum)
    requires InWindow(missing, newest) && a in missing && !AheadOf(a, next)
    ensures b in Trimmed(missing, next) && !AheadOf(b, next) && !AheadOf(a, b)
    decreases ForwardDiff(a, newest)
  {
    b := a;
    if exists q :: q in missing && !AheadOf(q, next) && AheadOf(q, a) {
      var q :| q in missing && !AheadOf(q, next) && AheadOf(q, a);
      assert 1 <= ForwardDiff(q, newest) <= MAX_PADDING_AGE && 1 <= ForwardDiff(a, newest) <= MAX_PADDING_AGE;
      b := NewestUpTo(missing, next, newest, q);
      assert 1 <= ForwardDiff(b, newest) <= MAX_PADDING_AGE;
    }
  }

  ghost predicate JumpsHalf(missing: set<SeqNum>, newest: SeqNum, seqNum: SeqNum) {
    ForwardDiff(newest, seqNum) == 32768 && newest < 1000 && Minus(newest, 1000) in missing
  }

  /** The window is kept by every update except one: a jump of exactly half the number space
      away from a newest number below 1000, while the oldest number of the window is missing. */
  lemma WindowKept(missing: set<SeqNum>, newest: SeqNum, seqNum: SeqNum)
    ensures InWindow(missing, newest) ==>
              (InWindow(Updated(missing, newest, seqNum), NewestAfter(newest, seqNum)) <==>
               !JumpsHalf(missing, newest, seqNum))
  {
    var u := Updated(missing, newest, seqNum);
    if ForwardDiff(newest, seqNum) == 32768 && newest < 1000 && Minus(newest, 1000) in missing {
      assert Minus(newest, 1000) in u;
    }
  }

  /** Such a jump does leave a stale entry behind. */
  lemma WindowLost()
    ensures InWindow({64536}, 0) && !InWindow(Updated({64536}, 0, 32768), NewestAfter(0, 32768))
  {
    WindowKept({64536}, 0, 32768);
  }
}
